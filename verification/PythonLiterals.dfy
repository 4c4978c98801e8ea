/**
 String literals of Python with any of its escapes, in either quotes: each part is read as the character that it
 stands for.
 */
module PythonLiterals {
  import opened Text
  import opened Json
  import opened JsonRoundTrip
  import opened JsonTexts

  /** One part of a Python string literal. An octal escape is written with all its three digits. */
  datatype PyPart = Simple(c: char) | Letter(e: char) | Octal(digits: string) | Hex(digits: string) | Code4(hex: string)
    | Code8(high: string, low: string)

  /** The character written by a backslash and one more character. */
  function LetterValue(e: char): Option<char> {
    match e
    case '\'' => Some('\'')
    case '"' => Some('"')
    case '\\' => Some('\\')
    case 'a' => Some('\U{07}')
    case 'b' => Some('\U{08}')
    case 'f' => Some('\U{0C}')
    case 'n' => Some('\U{0A}')
    case 'r' => Some('\U{0D}')
    case 't' => Some('\U{09}')
    case 'v' => Some('\U{0B}')
    case _ => None
  }

  predicate IsOctal3(s: string) {
    |s| == 3 && forall i | 0 <= i < 3 :: '0' <= s[i] <= '7'
  }

  function OctalOf(s: string): (r: nat)
    requires IsOctal3(s)
    ensures r < 0x200
  {
    64 * (s[0] as int - '0' as int) + 8 * (s[1] as int - '0' as int) + (s[2] as int - '0' as int)
  }

  predicate IsHex2(s: string) {
    |s| == 2 && IsHexDigit(s[0]) && IsHexDigit(s[1])
  }

  /** A code point that is no surrogate. */
  predicate IsScalarValue(u: int) {
    0 <= u < 0xD800 || 0xE000 <= u < 0x11_0000
  }

  predicate LegalPyPart(q: char, p: PyPart) {
    match p
    case Simple(c) => c != q && c != '\\' && c != '\n' && c != '\r' && c != '\0'
    case Letter(e) => LetterValue(e).Some?
    case Octal(digits) => IsOctal3(digits)
    case Hex(digits) => IsHex2(digits)
    case Code4(hex) => IsHex4(hex) && IsScalarValue(UnitOf(hex))
    case Code8(high, low) => IsHex4(high) && IsHex4(low) && IsScalarValue(0x1_0000 * UnitOf(high) + UnitOf(low))
  }

  function PyText(p: PyPart): string {
    match p
    case Simple(c) => [c]
    case Letter(e) => ['\\', e]
    case Octal(digits) => ['\\'] + digits
    case Hex(digits) => ['\\', 'x'] + digits
    case Code4(hex) => ['\\', 'u'] + hex
    case Code8(high, low) => ['\\', 'U'] + (high + low)
  }

  function PyValue(q: char, p: PyPart): char
    requires LegalPyPart(q, p)
  {
    match p
    case Simple(c) => c
    case Letter(e) => LetterValue(e).value
    case Octal(digits) => OctalOf(digits) as char
    case Hex(digits) => (0x10 * DigitOf(digits[0]) + DigitOf(digits[1])) as char
    case Code4(hex) => UnitOf(hex) as char
    case Code8(high, low) => (0x1_0000 * UnitOf(high) + UnitOf(low)) as char
  }

  predicate LegalPyParts(q: char, parts: seq<PyPart>) {
    forall p | p in parts :: LegalPyPart(q, p)
  }

  function PyPartsText(parts: seq<PyPart>): string {
    if parts == [] then "" else PyText(parts[0]) + PyPartsText(parts[1..])
  }

  function PyPartsValue(q: char, parts: seq<PyPart>): string
    requires LegalPyParts(q, parts)
  {
    if parts == [] then ""
    else
      assert parts[0] in parts;
      [PyValue(q, parts[0])] + PyPartsValue(q, parts[1..])
  }

  lemma {:induction false} LetterRead(e: char, rest: string)
    requires LetterValue(e).Some?
    ensures Unescape(PythonText, [e] + rest) == Some((LetterValue(e).value, 1))
  {
    hide LexUnicode, LexOctal, LexHex2, LexHex8;
  }

  lemma {:induction false} OctalRead(digits: string, rest: string)
    requires IsOctal3(digits)
    ensures Unescape(PythonText, digits + rest) == Some((OctalOf(digits) as char, 3))
  {
    hide LexUnicode, LexHex2, LexHex8;
    var s := digits + rest;
    assert s[0] == digits[0] && s[1] == digits[1] && s[2] == digits[2];
  }

  lemma {:induction false} HexRead(digits: string, rest: string)
    requires IsHex2(digits)
    ensures Unescape(PythonText, ['x'] + (digits + rest)) == Some(((0x10 * DigitOf(digits[0]) + DigitOf(digits[1])) as char, 3))
  {
    hide LexUnicode, LexOctal, LexHex8, HexValue;
    var s := ['x'] + (digits + rest);
    assert s[1..] == digits + rest && s[1..][0] == digits[0] && s[1..][1] == digits[1];
    HexDigitExact(digits[0]);
    HexDigitExact(digits[1]);
  }

  lemma {:induction false} Code4Read(hex: string, rest: string)
    requires IsHex4(hex) && IsScalarValue(UnitOf(hex))
    ensures Unescape(PythonText, ['u'] + (hex + rest)) == Some((UnitOf(hex) as char, 5))
  {
    hide LexHex4, LexOctal, LexHex2, LexHex8, UnitOf;
    HexExact(hex, rest);
    assert (['u'] + (hex + rest))[1..] == hex + rest;
  }

  lemma {:induction false} Code8Read(high: string, low: string, rest: string)
    requires IsHex4(high) && IsHex4(low) && IsScalarValue(0x1_0000 * UnitOf(high) + UnitOf(low))
    ensures Unescape(PythonText, ['U'] + (high + low + rest)) == Some(((0x1_0000 * UnitOf(high) + UnitOf(low)) as char, 9))
  {
    hide LexUnicode, LexOctal, LexHex2, LexHex4, UnitOf;
    var s := high + low + rest;
    HexExact(high, low + rest);
    HexExact(low, rest);
    assert s == high + (low + rest) && s[4..] == low + rest;
    assert (['U'] + s)[1..] == s;
  }

  /** Every escape is read as its value, whatever follows it. */
  lemma {:induction false} PyEscapeRead(q: char, p: PyPart, rest: string)
    requires LegalPyPart(q, p) && !p.Simple?
    ensures Unescape(PythonText, PyText(p)[1..] + rest) == Some((PyValue(q, p), |PyText(p)| - 1))
  {
    hide Unescape, UnitOf, DigitOf, LetterValue, OctalOf;
    match p
    case Letter(e) =>
      LetterRead(e, rest);
      assert PyText(p)[1..] == [e];
    case Octal(digits) =>
      OctalRead(digits, rest);
      assert PyText(p)[1..] == digits;
    case Hex(digits) =>
      HexRead(digits, rest);
      assert PyText(p)[1..] + rest == ['x'] + (digits + rest);
    case Code4(hex) =>
      Code4Read(hex, rest);
      assert PyText(p)[1..] + rest == ['u'] + (hex + rest);
    case Code8(high, low) =>
      Code8Read(high, low, rest);
      assert PyText(p)[1..] + rest == ['U'] + (high + low + rest);
  }

  lemma {:induction false} PyPartUndone(q: char, p: PyPart)
    requires OpensString(PythonText, q) && LegalPyPart(q, p)
    ensures Undoes(UnescaperOf(PythonText), RawOf(PythonText), q, PyText(p), PyValue(q, p))
  {
    hide Unescape, UnitOf, DigitOf, LetterValue, OctalOf;
    var e, c := PyText(p), PyValue(q, p);
    if !p.Simple? {
      forall rest: string {:trigger UnescaperOf(PythonText)(e[1..] + rest)}
        ensures UnescaperOf(PythonText)(e[1..] + rest) == Some((c, |e| - 1))
      {
        PyEscapeRead(q, p, rest);
      }
    }
  }

  lemma {:induction false} PyPartsRead(q: char, parts: seq<PyPart>, rest: string)
    requires OpensString(PythonText, q) && LegalPyParts(q, parts)
    ensures LexString(UnescaperOf(PythonText), RawOf(PythonText), q, PyPartsText(parts) + ([q] + rest)) == Some((PyPartsValue(q, parts), rest))
  {
    if parts == [] {
      assert "" + ([q] + rest) == [q] + rest;
      assert ([q] + rest)[1..] == rest;
    } else {
      hide LexString, LegalPyPart, PyText, PyValue, Undoes, OpensString;
      var p, more := parts[0], parts[1..];
      assert p in parts;
      PyPartUndone(q, p);
      PyPartsRead(q, more, rest);
      LexStringStep(UnescaperOf(PythonText), RawOf(PythonText), q, PyText(p), PyValue(q, p), PyPartsText(more) + ([q] + rest));
      Assoc(PyText(p), PyPartsText(more), [q] + rest);
    }
  }

  /** A Python string literal of such parts is read as the characters they stand for. */
  lemma {:induction false} PythonStringRead(q: char, parts: seq<PyPart>)
    requires q == '\'' || q == '"'
    requires LegalPyParts(q, parts)
    ensures Parse(PythonText, [q] + PyPartsText(parts) + [q]) == Some(Str(PyPartsValue(q, parts)))
  {
    hide LexString, LexInt, LexWord, Word, PyPartsText, PyPartsValue, UnescaperOf, RawOf, LegalPyParts;
    var s, v := [q] + PyPartsText(parts) + [q], Str(PyPartsValue(q, parts));
    PyPartsRead(q, parts, "");
    assert [q] + "" == [q];
    assert s[1..] == PyPartsText(parts) + ([q] + "");
    assert Lex(PythonText, "") == Some([]);
    assert Lex(PythonText, s) == Some([Atom(v)] + []);
    assert [Atom(v)] + [] == [Atom(v)] && [Atom(v)][1..] == [];
  }
}
