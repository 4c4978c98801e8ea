/**
 JSON values as Python sees them, with the parsers that the callback tries in turn: `json.loads` and, for
 dicts, lists, strings, integers, True, False and None, `ast.literal_eval`. A dict is its list of pairs in
 insertion order.
 */
module Json {
  import opened Text

  datatype Json =
    | Null
    | Bool(b: bool)
    | Int(n: int)
    | Str(s: string)
    | Arr(items: seq<Json>)
    | Obj(members: seq<Member>)

  datatype Member = Member(key: string, value: Json)

  datatype Dialect = JsonText | PythonText

  predicate IsScalar(v: Json) {
    !v.Arr? && !v.Obj?
  }

  /** Every dict in the value has distinct keys, as every Python dict has. */
  predicate WellFormed(v: Json)
    decreases v, 0
  {
    match v
    case Arr(items) => AllWellFormed(items)
    case Obj(members) => DistinctKeys(members) && MembersWellFormed(members)
    case _ => true
  }

  predicate AllWellFormed(items: seq<Json>)
    decreases items, 1
  {
    items == [] || (WellFormed(items[0]) && AllWellFormed(items[1..]))
  }

  predicate MembersWellFormed(members: seq<Member>)
    decreases members, 1
  {
    members == [] || (WellFormed(members[0].value) && MembersWellFormed(members[1..]))
  }

  predicate DistinctKeys(members: seq<Member>) {
    forall i, j | 0 <= i < j < |members| :: members[i].key != members[j].key
  }

  predicate HasKey(members: seq<Member>, k: string) {
    exists i | 0 <= i < |members| :: members[i].key == k
  }

  /** The value stored under a key; `Null` if there is none. */
  function Lookup(members: seq<Member>, k: string): Json {
    if members == [] then Null
    else if members[0].key == k then members[0].value
    else Lookup(members[1..], k)
  }

  /** `d[k] = v` on a dict: an existing key keeps its place. */
  function Put(members: seq<Member>, k: string, v: Json): seq<Member> {
    if members == [] then [Member(k, v)]
    else if members[0].key == k then [Member(k, v)] + members[1..]
    else [members[0]] + Put(members[1..], k, v)
  }

  /** The dict built from a list of pairs: the last value of a key wins. */
  function DictOf(pairs: seq<Member>): seq<Member> {
    if pairs == [] then []
    else Put(DictOf(pairs[..|pairs| - 1]), pairs[|pairs| - 1].key, pairs[|pairs| - 1].value)
  }

  // ---- Tokens ----

  datatype Token = Punct(c: char) | Atom(v: Json)

  predicate IsPunct(c: char) {
    c == '{' || c == '}' || c == '[' || c == ']' || c == ':' || c == ','
  }

  predicate IsGap(d: Dialect, c: char) {
    c == ' ' || c == '\t' || c == '\n' || c == '\r' || (d.PythonText? && c == '\U{0C}')
  }

  predicate OpensString(d: Dialect, c: char) {
    c == '"' || (d.PythonText? && c == '\'')
  }

  predicate IsDigit(c: char) {
    '0' <= c <= '9'
  }

  function DigitRun(s: string): (k: nat)
    ensures k <= |s| && forall i | 0 <= i < k :: IsDigit(s[i])
    ensures k < |s| ==> !IsDigit(s[k])
  {
    if s != "" && IsDigit(s[0]) then
      var k := DigitRun(s[1..]);
      assert forall i | 0 < i < 1 + k :: s[i] == s[1..][i - 1];
      1 + k
    else 0
  }

  function DigitsValue(s: string): nat
    requires forall i | 0 <= i < |s| :: IsDigit(s[i])
  {
    if s == "" then 0
    else
      assert IsDigit(s[|s| - 1]);
      10 * DigitsValue(s[..|s| - 1]) + (s[|s| - 1] as int - '0' as int)
  }

  /** An unsigned number without superfluous leading zeros, and how many characters it takes. */
  function LexNat(s: string): (r: Option<(nat, nat)>)
    ensures r.Some? ==> 0 < r.value.1 <= |s|
  {
    if s == "" || !IsDigit(s[0]) then None
    else if s[0] == '0' then Some((0, 1))
    else Some((DigitsValue(s[..DigitRun(s)]), DigitRun(s)))
  }

  function LexInt(s: string): (r: Option<(int, nat)>)
    ensures r.Some? ==> 0 < r.value.1 <= |s|
  {
    if s != "" && s[0] == '-' then
      match LexNat(s[1..])
      case None => None
      case Some((n, used)) => Some((-(n as int), 1 + used))
    else
      match LexNat(s)
      case None => None
      case Some((n, used)) => Some((n, used))
  }

  function Word(d: Dialect, v: Json): string {
    match v
    case Null => if d.JsonText? then "null" else "None"
    case Bool(true) => if d.JsonText? then "true" else "True"
    case Bool(false) => if d.JsonText? then "false" else "False"
    case _ => ""
  }

  function LexWord(d: Dialect, s: string): Option<Json> {
    if StartsAt(s, 0, Word(d, Null)) then Some(Null)
    else if StartsAt(s, 0, Word(d, Bool(true))) then Some(Bool(true))
    else if StartsAt(s, 0, Word(d, Bool(false))) then Some(Bool(false))
    else None
  }

  function HexValue(c: char): Option<nat> {
    if IsDigit(c) then Some(c as int - '0' as int)
    else if 'a' <= c <= 'f' then Some(c as int - 'a' as int + 10)
    else if 'A' <= c <= 'F' then Some(c as int - 'A' as int + 10)
    else None
  }

  /** The 16-bit code unit written by the first four characters. */
  function LexHex4(s: string): (r: Option<nat>)
    ensures r.Some? ==> |s| >= 4 && r.value < 0x1_0000
  {
    if |s| < 4 then None
    else
      match (HexValue(s[0]), HexValue(s[1]), HexValue(s[2]), HexValue(s[3]))
      case (Some(a), Some(b), Some(c), Some(e)) =>
        if a < 16 && b < 16 && c < 16 && e < 16 then Some(0x1000 * a + 0x100 * b + 0x10 * c + e) else None
      case _ => None
  }

  predicate IsHigh(u: nat) {
    0xD800 <= u < 0xDC00
  }

  predicate IsLow(u: nat) {
    0xDC00 <= u < 0xE000
  }

  /** What follows `\u`: one code unit, or in JSON a surrogate pair. Characters taken are counted behind the `u`. */
  function LexUnicode(d: Dialect, s: string): (r: Option<(char, nat)>)
    ensures r.Some? ==> r.value.1 <= |s|
  {
    match LexHex4(s)
    case None => None
    case Some(u) =>
      if d.JsonText? && IsHigh(u) && StartsAt(s, 4, "\\u") then
        match LexHex4(s[6..])
        case Some(l) =>
          if IsLow(l) then Some(((0x1_0000 + 0x400 * (u - 0xD800) + (l - 0xDC00)) as char, 10)) else None
        case None => None
      else if IsHigh(u) || IsLow(u) then None
      else Some((u as char, 4))
  }

  predicate IsOctal(c: char) {
    '0' <= c <= '7'
  }

  /** Up to three octal digits, as far as they go. */
  function LexOctal(s: string): (r: (nat, nat))
    requires s != "" && IsOctal(s[0])
    ensures r.0 < 0x200 && 0 < r.1 <= |s|
  {
    var a := s[0] as int - '0' as int;
    if |s| < 2 || !IsOctal(s[1]) then (a, 1)
    else
      var b := 8 * a + (s[1] as int - '0' as int);
      if |s| < 3 || !IsOctal(s[2]) then (b, 2) else (8 * b + (s[2] as int - '0' as int), 3)
  }

  function LexHex2(s: string): (r: Option<nat>)
    ensures r.Some? ==> |s| >= 2 && r.value < 0x100
  {
    if |s| < 2 then None
    else
      match (HexValue(s[0]), HexValue(s[1]))
      case (Some(a), Some(b)) => if a < 16 && b < 16 then Some(0x10 * a + b) else None
      case _ => None
  }

  /** The code point written by the first eight characters, surrogates excluded. */
  function LexHex8(s: string): (r: Option<char>)
    ensures r.Some? ==> |s| >= 8
  {
    if |s| < 8 then None
    else
      match (LexHex4(s), LexHex4(s[4..]))
      case (Some(h), Some(l)) =>
        var u := 0x1_0000 * h + l;
        if u < 0x11_0000 && !IsHigh(u) && !IsLow(u) then Some(u as char) else None
      case _ => None
  }

  /** The escapes that Python adds. An unknown escape stands for itself: the backslash stays, and nothing is taken. */
  function UnescapePython(s: string): (r: Option<(char, nat)>)
    requires s != ""
    ensures r.Some? ==> r.value.1 <= |s|
  {
    if IsOctal(s[0]) then Some((LexOctal(s).0 as char, LexOctal(s).1))
    else match s[0]
      case '\'' => Some(('\'', 1))
      case 'a' => Some(('\U{07}', 1))
      case 'v' => Some(('\U{0B}', 1))
      case 'x' => (match LexHex2(s[1..]) case None => None case Some(u) => Some((u as char, 3)))
      case 'U' => (match LexHex8(s[1..]) case None => None case Some(c) => Some((c, 9)))
      case 'N' => None
      case '\n' => None
      case '\r' => None
      case _ => Some(('\\', 0))
  }

  /** The character written by an escape sequence whose backslash has been read, and how much it takes. */
  function Unescape(d: Dialect, s: string): (r: Option<(char, nat)>)
    ensures r.Some? ==> r.value.1 <= |s|
  {
    if s == "" then None
    else match s[0]
      case '\\' => Some(('\\', 1))
      case '"' => Some(('"', 1))
      case 'n' => Some(('\n', 1))
      case 'r' => Some(('\r', 1))
      case 't' => Some(('\t', 1))
      case 'b' => Some(('\U{08}', 1))
      case 'f' => Some(('\U{0C}', 1))
      case 'u' =>
        (match LexUnicode(d, s[1..])
         case None => None
         case Some((c, used)) => Some((c, 1 + used)))
      case '/' => if d.JsonText? then Some(('/', 1)) else UnescapePython(s)
      case _ => if d.JsonText? then None else UnescapePython(s)
  }

  /** Characters allowed unescaped in a string literal. */
  predicate IsRaw(d: Dialect, c: char) {
    if d.JsonText? then c >= ' ' else c != '\n' && c != '\r' && c != '\0'
  }

  type Unescaper = string -> Option<(char, nat)>

  function UnescaperOf(d: Dialect): Unescaper {
    (s: string) => Unescape(d, s)
  }

  function RawOf(d: Dialect): char -> bool {
    (c: char) => IsRaw(d, c)
  }

  /**
   Reads a string literal whose opening quote `q` has been read: its value and the text behind it. An escape
   sequence never takes more characters than there are.
   */
  function LexString(unescape: Unescaper, raw: char -> bool, q: char, s: string): (r: Option<(string, string)>)
    ensures r.Some? ==> |r.value.1| < |s|
    decreases |s|
  {
    if s == "" then None
    else if s[0] == q then Some(("", s[1..]))
    else if s[0] == '\\' then
      match unescape(s[1..])
      case None => None
      case Some((c, used)) => if used >= |s| then None else Behind(c, LexString(unescape, raw, q, s[1 + used..]))
    else if !raw(s[0]) then None
    else Behind(s[0], LexString(unescape, raw, q, s[1..]))
  }

  function Behind(c: char, r: Option<(string, string)>): Option<(string, string)> {
    match r case None => None case Some((value, rest)) => Some(([c] + value, rest))
  }

  function Lex(d: Dialect, s: string): Option<seq<Token>>
    decreases |s|
  {
    if s == "" then Some([])
    else if IsGap(d, s[0]) then Lex(d, s[1..])
    else if IsPunct(s[0]) then After(Punct(s[0]), Lex(d, s[1..]))
    else if OpensString(d, s[0]) then
      match LexString(UnescaperOf(d), RawOf(d), s[0], s[1..])
      case None => None
      case Some((value, rest)) => After(Atom(Str(value)), Lex(d, rest))
    else if s[0] == '-' || IsDigit(s[0]) then
      match LexInt(s)
      case None => None
      case Some((n, used)) => After(Atom(Int(n)), Lex(d, s[used..]))
    else
      match LexWord(d, s)
      case None => None
      case Some(v) => if Word(d, v) == "" then None else After(Atom(v), Lex(d, s[|Word(d, v)|..]))
  }

  function After(t: Token, r: Option<seq<Token>>): Option<seq<Token>> {
    match r case None => None case Some(ts) => Some([t] + ts)
  }

  // ---- Parsing ----

  type Parsed<T> = Option<(T, seq<Token>)>

  predicate Next(ts: seq<Token>, c: char) {
    ts != [] && ts[0] == Punct(c)
  }

  function ParseValue(d: Dialect, ts: seq<Token>): (r: Parsed<Json>)
    ensures r.Some? ==> |r.value.1| < |ts|
    decreases |ts|, 0
  {
    if ts == [] then None
    else match ts[0]
      case Atom(v) => Some((v, ts[1..]))
      case Punct('[') =>
        if Next(ts[1..], ']') then Some((Arr([]), ts[2..]))
        else (match ParseItems(d, ts[1..])
              case None => None
              case Some((items, rest)) => Some((Arr(items), rest)))
      case Punct('{') =>
        if Next(ts[1..], '}') then Some((Obj([]), ts[2..]))
        else (match ParseMembers(d, ts[1..])
              case None => None
              case Some((pairs, rest)) => Some((Obj(DictOf(pairs)), rest)))
      case _ => None
  }

  /** One or more values up to and including `]`; Python allows a comma before it. */
  function ParseItems(d: Dialect, ts: seq<Token>): (r: Parsed<seq<Json>>)
    ensures r.Some? ==> |r.value.1| < |ts|
    decreases |ts|, 1
  {
    match ParseValue(d, ts)
    case None => None
    case Some((v, rest)) =>
      if Next(rest, ']') then Some(([v], rest[1..]))
      else if Next(rest, ',') then
        if d.PythonText? && Next(rest[1..], ']') then Some(([v], rest[2..]))
        else (match ParseItems(d, rest[1..])
              case None => None
              case Some((vs, rest')) => Some(([v] + vs, rest')))
      else None
  }

  /** One or more `"key": value` pairs up to and including `}`. */
  function ParseMembers(d: Dialect, ts: seq<Token>): (r: Parsed<seq<Member>>)
    ensures r.Some? ==> |r.value.1| < |ts|
    decreases |ts|, 1
  {
    if |ts| < 2 || !(ts[0].Atom? && ts[0].v.Str?) || ts[1] != Punct(':') then None
    else
      match ParseValue(d, ts[2..])
      case None => None
      case Some((v, rest)) =>
        var m := Member(ts[0].v.s, v);
        if Next(rest, '}') then Some(([m], rest[1..]))
        else if Next(rest, ',') then
          if d.PythonText? && Next(rest[1..], '}') then Some(([m], rest[2..]))
          else (match ParseMembers(d, rest[1..])
                case None => None
                case Some((ms, rest')) => Some(([m] + ms, rest')))
        else None
  }

  function Parse(d: Dialect, s: string): Option<Json> {
    match Lex(d, s)
    case None => None
    case Some(ts) =>
      match ParseValue(d, ts)
      case Some((v, rest)) => if rest == [] then Some(v) else None
      case None => None
  }

  /** `json.loads` */
  function Loads(s: string): Option<Json> {
    Parse(JsonText, s)
  }

  // ---- Printing ----

  function TokensOf(v: Json): seq<Token>
    decreases v, 0
  {
    match v
    case Arr(items) => [Punct('[')] + ItemTokens(items) + [Punct(']')]
    case Obj(members) => [Punct('{')] + MemberTokens(members) + [Punct('}')]
    case _ => [Atom(v)]
  }

  function ItemTokens(items: seq<Json>): seq<Token>
    decreases items, 1
  {
    if items == [] then []
    else if |items| == 1 then TokensOf(items[0])
    else TokensOf(items[0]) + [Punct(',')] + ItemTokens(items[1..])
  }

  function MemberTokens(members: seq<Member>): seq<Token>
    decreases members, 1
  {
    if members == [] then []
    else
      var one := [Atom(Str(members[0].key)), Punct(':')] + TokensOf(members[0].value);
      if |members| == 1 then one else one + [Punct(',')] + MemberTokens(members[1..])
  }

  function HexDigit(d: nat): char
    requires d < 16
  {
    if d < 10 then ('0' as int + d) as char else ('a' as int + (d - 10)) as char
  }

  function Hex4(u: nat): string
    requires u < 0x1_0000
  {
    [HexDigit(u / 0x1000), HexDigit(u / 0x100 % 16), HexDigit(u / 0x10 % 16), HexDigit(u % 16)]
  }

  /** What `\u` is followed by: one code unit, or two with another `\u` between them. */
  function UnicodeTail(c: char): string {
    var u := c as int;
    if u < 0x1_0000 then Hex4(u)
    else Hex4(0xD800 + (u - 0x1_0000) / 0x400) + "\\u" + Hex4(0xDC00 + (u - 0x1_0000) % 0x400)
  }

  /** How a character is written inside a literal quoted with `q`: JSON text stays within ASCII. */
  function EscapeChar(d: Dialect, q: char, c: char): string {
    if c == q || c == '\\' then ['\\', c]
    else if c == '\n' then "\\n"
    else if c == '\r' then "\\r"
    else if c == '\t' then "\\t"
    else if c == '\U{08}' then "\\b"
    else if c == '\U{0C}' then "\\f"
    else if ' ' <= c <= '~' then [c]
    else if d.PythonText? && c as int >= 0x1_0000 then [c]
    else "\\u" + UnicodeTail(c)
  }

  function EscapeAll(d: Dialect, q: char, s: string): string {
    if s == "" then "" else EscapeChar(d, q, s[0]) + EscapeAll(d, q, s[1..])
  }

  function NatText(n: nat): (s: string)
    ensures s != "" && forall i | 0 <= i < |s| :: IsDigit(s[i])
  {
    if n < 10 then [('0' as int + n) as char] else NatText(n / 10) + [('0' as int + n % 10) as char]
  }

  function IntText(n: int): string {
    if n < 0 then "-" + NatText(-n) else NatText(n)
  }

  function Spell(d: Dialect, q: char, t: Token): string {
    match t
    case Punct(c) => [c]
    case Atom(Str(s)) => [q] + EscapeAll(d, q, s) + [q]
    case Atom(Int(n)) => IntText(n)
    case Atom(v) => Word(d, v)
  }

  /** How one token is printed: the white space in front of it, and the quote used if it is a string. */
  datatype Piece = Piece(gap: string, quote: char)

  predicate IsGapText(d: Dialect, gap: string) {
    forall i | 0 <= i < |gap| :: IsGap(d, gap[i])
  }

  predicate LegalStyle(d: Dialect, style: seq<Piece>) {
    forall p | p in style :: IsGapText(d, p.gap) && OpensString(d, p.quote)
  }

  /** The tokens spelled one after the other in a given style. */
  function LayOut(d: Dialect, ts: seq<Token>, style: seq<Piece>): string
    requires |ts| == |style|
  {
    if ts == [] then "" else style[0].gap + Spell(d, style[0].quote, ts[0]) + LayOut(d, ts[1..], style[1..])
  }

  /** The style of `json.dumps`: one blank behind every comma and colon, no other white space. */
  function DumpsStyle(ts: seq<Token>): seq<Piece> {
    seq(|ts|, i requires 0 <= i < |ts| =>
      Piece(if i > 0 && (ts[i - 1] == Punct(',') || ts[i - 1] == Punct(':')) then " " else "", '"'))
  }

  /** `json.dumps` */
  function Dumps(v: Json): string {
    LayOut(JsonText, TokensOf(v), DumpsStyle(TokensOf(v)))
  }
}
