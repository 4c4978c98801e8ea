/** What `json.dumps` writes, value by value and character by character. */
module JsonPrinting {
  import opened Text
  import opened Json
  import opened JsonRoundTrip
  import opened JsonGrammar
  import opened JsonTexts

  // ---- Values ----

  /** The text of a value, with a comma and a blank between parts and a colon and a blank behind keys. */
  function Printed(v: Json): string
    decreases v, 0
  {
    match v
    case Null => "null"
    case Bool(b) => if b then "true" else "false"
    case Int(n) => IntText(n)
    case Str(s) => "\"" + EscapeAll(JsonText, '"', s) + "\""
    case Arr(items) => "[" + PrintedItems(items) + "]"
    case Obj(members) => "{" + PrintedMembers(members) + "}"
  }

  function PrintedItems(items: seq<Json>): string
    decreases items, 1
  {
    if items == [] then ""
    else if |items| == 1 then Printed(items[0])
    else Printed(items[0]) + (", " + PrintedItems(items[1..]))
  }

  function PrintedMembers(members: seq<Member>): string
    decreases members, 1
  {
    if members == [] then ""
    else
      var one := "\"" + EscapeAll(JsonText, '"', members[0].key) + "\"" + (": " + Printed(members[0].value));
      if |members| == 1 then one else one + (", " + PrintedMembers(members[1..]))
  }

  predicate IsSeparator(t: Token) {
    t == Punct(',') || t == Punct(':')
  }

  function Blank(space: bool): string {
    if space then " " else ""
  }

  /** Tokens spelled with a blank behind every comma and colon, and one in front if `space` says so. */
  function Flat(space: bool, ts: seq<Token>): string
    decreases |ts|
  {
    if ts == [] then "" else Blank(space) + Spell(JsonText, '"', ts[0]) + Flat(IsSeparator(ts[0]), ts[1..])
  }

  function StyleFrom(space: bool, ts: seq<Token>): seq<Piece> {
    seq(|ts|, i requires 0 <= i < |ts| => Piece(Blank(if i == 0 then space else IsSeparator(ts[i - 1])), '"'))
  }

  lemma {:induction false} FlatIsLayOut(space: bool, ts: seq<Token>)
    ensures LayOut(JsonText, ts, StyleFrom(space, ts)) == Flat(space, ts)
    decreases |ts|
  {
    if ts != [] {
      hide Spell, IsSeparator;
      FlatIsLayOut(IsSeparator(ts[0]), ts[1..]);
      assert StyleFrom(space, ts)[1..] == StyleFrom(IsSeparator(ts[0]), ts[1..]);
    }
  }

  lemma {:induction false} DumpsIsFlat(v: Json)
    ensures Dumps(v) == Flat(false, TokensOf(v))
  {
    hide LayOut, Flat, TokensOf;
    FlatIsLayOut(false, TokensOf(v));
    SameStyle(TokensOf(v));
  }

  lemma {:induction false} SameStyle(ts: seq<Token>)
    ensures DumpsStyle(ts) == StyleFrom(false, ts)
  {
    forall i | 0 <= i < |ts|
      ensures DumpsStyle(ts)[i] == StyleFrom(false, ts)[i]
    {
      NoBlank();
      assert StyleFrom(false, ts)[i] == Piece(Blank(if i == 0 then false else IsSeparator(ts[i - 1])), '"');
    }
  }

  lemma {:induction false} FlatOne(space: bool, t: Token, more: seq<Token>)
    ensures Flat(space, [t] + more) == Blank(space) + Spell(JsonText, '"', t) + Flat(IsSeparator(t), more)
  {
    hide Spell, IsSeparator;
    assert ([t] + more)[1..] == more;
  }

  lemma {:induction false} FlatValue(space: bool, v: Json, more: seq<Token>)
    ensures Flat(space, TokensOf(v) + more) == Blank(space) + Printed(v) + Flat(false, more)
    decreases v, 0
  {
    hide Flat, ItemTokens, MemberTokens, PrintedItems, PrintedMembers, EscapeAll, IntText, Blank;
    match v
    case Arr(items) =>
      var close := [Punct(']')] + more;
      FlatOne(space, Punct('['), ItemTokens(items) + close);
      FlatItems(false, items, close);
      FlatOne(false, Punct(']'), more);
      Wrapped(TokensOf(v), Punct('['), ItemTokens(items), Punct(']'), more);
      NoBlank();
      Bracketed(Blank(space), "[", PrintedItems(items), "]", Flat(false, more));
    case Obj(members) =>
      var close := [Punct('}')] + more;
      FlatOne(space, Punct('{'), MemberTokens(members) + close);
      FlatMembers(false, members, close);
      FlatOne(false, Punct('}'), more);
      Wrapped(TokensOf(v), Punct('{'), MemberTokens(members), Punct('}'), more);
      NoBlank();
      Bracketed(Blank(space), "{", PrintedMembers(members), "}", Flat(false, more));
    case _ => FlatOne(space, Atom(v), more);
  }

  lemma {:induction false} NoBlank()
    ensures Blank(false) == "" && Blank(true) == " "
  {
  }

  lemma {:induction false} Wrapped(ts: seq<Token>, open: Token, body: seq<Token>, close: Token, more: seq<Token>)
    requires ts == [open] + body + [close]
    ensures ts + more == [open] + (body + ([close] + more))
  {
  }

  lemma {:induction false} Bracketed(lead: string, open: string, body: string, close: string, rest: string)
    ensures lead + open + ("" + body + ("" + close + rest)) == lead + (open + body + close) + rest
  {
  }

  lemma {:induction false} NothingFlat(more: seq<Token>)
    ensures [] + more == more && ItemTokens([]) == [] && MemberTokens([]) == [] && PrintedItems([]) == "" && PrintedMembers([]) == ""
  {
  }

  lemma {:induction false} Separated(lead: string, one: string, sep: string, rest: string, end: string)
    ensures lead + one + ("" + sep + (" " + rest + end)) == lead + (one + (sep + " " + rest)) + end
  {
  }

  lemma {:induction false} MoreItems(items: seq<Json>, more: seq<Token>)
    requires |items| > 1
    ensures ItemTokens(items) + more == TokensOf(items[0]) + ([Punct(',')] + (ItemTokens(items[1..]) + more))
    ensures PrintedItems(items) == Printed(items[0]) + ("," + " " + PrintedItems(items[1..]))
  {
    hide TokensOf, Printed;
    assert "," + " " == ", ";
  }

  lemma {:induction false} CommaFlat(rest: seq<Token>)
    ensures Flat(false, [Punct(',')] + rest) == "" + "," + Flat(true, rest)
  {
    hide Flat;
    FlatOne(false, Punct(','), rest);
  }

  lemma {:induction false} FlatItems(space: bool, items: seq<Json>, more: seq<Token>)
    requires items == [] ==> !space
    ensures Flat(space, ItemTokens(items) + more) == Blank(space) + PrintedItems(items) + Flat(false, more)
    decreases items, 1
  {
    hide Flat, TokensOf, Printed, Blank;
    NoBlank();
    if items == [] {
      NothingFlat(more);
    } else if |items| == 1 {
      FlatValue(space, items[0], more);
    } else {
      hide IsSeparator;
      var rest := ItemTokens(items[1..]) + more;
      MoreItems(items, more);
      hide ItemTokens, PrintedItems;
      FlatValue(space, items[0], [Punct(',')] + rest);
      CommaFlat(rest);
      FlatItems(true, items[1..], more);
      Separated(Blank(space), Printed(items[0]), ",", PrintedItems(items[1..]), Flat(false, more));
    }
  }

  lemma {:induction false} FlatMember(space: bool, m: Member, more: seq<Token>)
    ensures Flat(space, [Atom(Str(m.key)), Punct(':')] + TokensOf(m.value) + more)
         == Blank(space) + ("\"" + EscapeAll(JsonText, '"', m.key) + "\"" + (": " + Printed(m.value))) + Flat(false, more)
    decreases m, 1
  {
    hide Flat, TokensOf, Printed, Blank, EscapeAll;
    NoBlank();
    var key, body := "\"" + EscapeAll(JsonText, '"', m.key) + "\"", TokensOf(m.value) + more;
    FlatOne(space, Atom(Str(m.key)), [Punct(':')] + body);
    FlatOne(false, Punct(':'), body);
    FlatValue(true, m.value, more);
    assert [Atom(Str(m.key)), Punct(':')] + TokensOf(m.value) + more == [Atom(Str(m.key))] + ([Punct(':')] + body);
    Separated(Blank(space), key, ":", Printed(m.value), Flat(false, more));
  }

  lemma {:induction false} FlatMembers(space: bool, members: seq<Member>, more: seq<Token>)
    requires members == [] ==> !space
    ensures Flat(space, MemberTokens(members) + more) == Blank(space) + PrintedMembers(members) + Flat(false, more)
    decreases members, 1
  {
    hide Flat, TokensOf, Printed, Blank, EscapeAll;
    NoBlank();
    if members == [] {
      NothingFlat(more);
    } else {
      var m := members[0];
      var one := [Atom(Str(m.key)), Punct(':')] + TokensOf(m.value);
      var text := "\"" + EscapeAll(JsonText, '"', m.key) + "\"" + (": " + Printed(m.value));
      if |members| == 1 {
        FlatMember(space, m, more);
      } else {
        var rest := MemberTokens(members[1..]) + more;
        FlatMember(space, m, [Punct(',')] + rest);
        CommaFlat(rest);
        FlatMembers(true, members[1..], more);
        assert MemberTokens(members) + more == one + ([Punct(',')] + rest);
        Separated(Blank(space), text, ",", PrintedMembers(members[1..]), Flat(false, more));
      }
    }
  }

  /** `json.dumps` writes every value in this one way. */
  lemma {:induction false} DumpsPrints(v: Json)
    ensures Dumps(v) == Printed(v)
  {
    hide Flat, TokensOf, Printed;
    DumpsIsFlat(v);
    FlatValue(false, v, []);
    assert TokensOf(v) + [] == TokensOf(v);
    NothingPrinted(Printed(v));
  }

  lemma {:induction false} NothingPrinted(s: string)
    ensures Blank(false) + s + Flat(false, []) == s
  {
  }

  // ---- Characters ----

  predicate IsLowerHex(s: string) {
    IsHex4(s) && forall i | 0 <= i < 4 :: !('A' <= s[i] <= 'F')
  }

  lemma {:induction false} Hex4Exact(u: nat)
    requires u < 0x1_0000
    ensures IsLowerHex(Hex4(u)) && UnitOf(Hex4(u)) == u
  {
    HexParts(u);
    DigitWritten(u / 0x1000);
    DigitWritten(u / 0x100 % 16);
    DigitWritten(u / 0x10 % 16);
    DigitWritten(u % 16);
  }

  lemma {:induction false} DigitWritten(d: nat)
    requires d < 16
    ensures IsHexDigit(HexDigit(d)) && DigitOf(HexDigit(d)) == d && !('A' <= HexDigit(d) <= 'F')
  {
  }

  /** The text is backslash, `u`, and four small hexadecimal digits of that value. */
  ghost predicate IsCode(e: string, u: nat) {
    exists hex :: e == ['\\', 'u'] + hex && IsLowerHex(hex) && UnitOf(hex) == u
  }

  /**
   How a character is written: seven of them with a short escape, other printable ASCII as it is, everything else as
   one or two hexadecimal code units.
   */
  lemma {:induction false} EscapeExact(c: char)
    ensures var e := EscapeChar(JsonText, '"', c);
            && (forall x: char | x != '/' && ShortValue(x) == Some(c) :: e == ['\\', x])
            && (' ' <= c <= '~' && c != '"' && c != '\\' ==> e == [c])
            && (!(' ' <= c <= '~') && c as int < 0x1_0000 && (forall x: char :: ShortValue(x) != Some(c)) ==> IsCode(e, c as int))
            && (c as int >= 0x1_0000 ==>
                  exists high, low :: e == high + low && IsCode(high, 0xD800 + (c as int - 0x1_0000) / 0x400)
                                      && IsCode(low, 0xDC00 + (c as int - 0x1_0000) % 0x400))
  {
    hide Hex4, IsLowerHex, UnitOf;
    var u := c as int;
    if u < 0x1_0000 {
      Hex4Exact(u);
      ShortEscapes(c);
      assert IsCode(['\\', 'u'] + Hex4(u), u);
    } else {
      LongEscape(c);
    }
  }

  lemma {:induction false} ShortEscapes(c: char)
    ensures forall x: char | x != '/' && ShortValue(x) == Some(c) :: EscapeChar(JsonText, '"', c) == ['\\', x]
    ensures !(' ' <= c <= '~') && (forall x: char :: ShortValue(x) != Some(c)) ==>
              EscapeChar(JsonText, '"', c) == "\\u" + UnicodeTail(c)
  {
    hide UnicodeTail;
    assert ShortValue('n') == Some('\n') && ShortValue('r') == Some('\r') && ShortValue('t') == Some('\t');
    assert ShortValue('b') == Some('\U{08}') && ShortValue('f') == Some('\U{0C}');
  }

  lemma {:induction false} LongEscape(c: char)
    requires c as int >= 0x1_0000
    ensures exists high, low :: EscapeChar(JsonText, '"', c) == high + low && IsCode(high, 0xD800 + (c as int - 0x1_0000) / 0x400)
                                && IsCode(low, 0xDC00 + (c as int - 0x1_0000) % 0x400)
  {
    hide Hex4, IsLowerHex, UnitOf;
    var u := c as int - 0x1_0000;
    var h, l := 0xD800 + u / 0x400, 0xDC00 + u % 0x400;
    Hex4Exact(h);
    Hex4Exact(l);
    var high, low := ['\\', 'u'] + Hex4(h), ['\\', 'u'] + Hex4(l);
    assert IsCode(high, h) && IsCode(low, l);
    assert EscapeChar(JsonText, '"', c) == high + low;
  }
}
