/**
 Canonical tool-call arguments: JSON text with sorted keys. Two JSON values get the same canonical text iff
 they differ only in the order of keys.
 */
module CanonicalArgs {
  import opened Text
  import opened Json
  import opened JsonRoundTrip

  /** Python's order on strings: by code point, left to right. */
  predicate KeyLess(a: string, b: string) {
    b != "" && (a == "" || a[0] < b[0] || (a[0] == b[0] && KeyLess(a[1..], b[1..])))
  }

  function Insert(m: Member, ms: seq<Member>): seq<Member> {
    if ms == [] || KeyLess(m.key, ms[0].key) then [m] + ms else [ms[0]] + Insert(m, ms[1..])
  }

  /** The value with the keys of every object in order. */
  function SortKeys(v: Json): Json
    decreases v, 0
  {
    match v
    case Arr(items) => Arr(SortItems(items))
    case Obj(members) => Obj(SortMembers(members))
    case _ => v
  }

  function SortItems(items: seq<Json>): (r: seq<Json>)
    decreases items, 1
  {
    if items == [] then [] else [SortKeys(items[0])] + SortItems(items[1..])
  }

  function SortMembers(members: seq<Member>): seq<Member>
    decreases members, 1
  {
    if members == [] then []
    else Insert(Member(members[0].key, SortKeys(members[0].value)), SortMembers(members[1..]))
  }

  /** `json.dumps(v, sort_keys=True)` */
  function SortedDumps(v: Json): string {
    Dumps(SortKeys(v))
  }

  /** `_canonical_args`: a string is parsed if it can be, and stripped otherwise. */
  function Canonical(args: Json): string {
    match args
    case Str(s) =>
      (match Loads(s)
       case Some(v) => SortedDumps(v)
       case None => Strip(s))
    case _ => SortedDumps(args)
  }

  /** Equal but for the order of keys, at any depth: the same keys, and the same values under each key. */
  ghost predicate SameUpToOrder(v: Json, w: Json)
    decreases v
  {
    match (v, w)
    case (Arr(a), Arr(b)) => |a| == |b| && forall i | 0 <= i < |a| :: SameUpToOrder(a[i], b[i])
    case (Obj(a), Obj(b)) =>
      && (forall m | m in a :: HasKey(b, m.key) && SameUpToOrder(m.value, Lookup(b, m.key)))
      && (forall n | n in b :: HasKey(a, n.key))
    case _ => v == w
  }

  // ---- Sorting ----

  lemma {:induction false} KeyLessTotal(a: string, b: string)
    ensures a == b || KeyLess(a, b) || KeyLess(b, a)
    ensures !(KeyLess(a, b) && KeyLess(b, a)) && !KeyLess(a, a)
  {
    if a != "" && b != "" && a[0] == b[0] {
      KeyLessTotal(a[1..], b[1..]);
      assert a == [a[0]] + a[1..] && b == [b[0]] + b[1..];
    }
    if a != "" {
      KeyLessTotal(a[1..], a[1..]);
    }
  }

  lemma {:induction false} KeyLessTransitive(a: string, b: string, c: string)
    requires KeyLess(a, b) && KeyLess(b, c)
    ensures KeyLess(a, c)
  {
    if a != "" && a[0] == b[0] && b[0] == c[0] {
      KeyLessTransitive(a[1..], b[1..], c[1..]);
    }
  }

  /** Keys strictly increase. */
  ghost predicate Sorted(ms: seq<Member>) {
    forall i, j | 0 <= i < j < |ms| :: KeyLess(ms[i].key, ms[j].key)
  }

  lemma {:induction false} InsertMembers(m: Member, ms: seq<Member>)
    ensures forall x :: x in Insert(m, ms) <==> x == m || x in ms
  {
    if ms != [] && !KeyLess(m.key, ms[0].key) {
      InsertMembers(m, ms[1..]);
      assert ms == [ms[0]] + ms[1..];
    }
  }

  lemma {:induction false} InsertSorted(m: Member, ms: seq<Member>)
    requires Sorted(ms) && forall x | x in ms :: x.key != m.key
    ensures Sorted(Insert(m, ms))
  {
    if ms != [] {
      var h, rest := ms[0], ms[1..];
      KeyLessTotal(m.key, h.key);
      if KeyLess(m.key, h.key) {
        forall x | x in ms
          ensures KeyLess(m.key, x.key)
        {
          if x != h {
            KeyLessTransitive(m.key, h.key, x.key);
          }
        }
      } else {
        assert h in ms;
        InsertSorted(m, rest);
        InsertMembers(m, rest);
        forall x | x in Insert(m, rest)
          ensures KeyLess(h.key, x.key)
        {
        }
      }
    }
  }

  function SortedMember(m: Member): Member {
    Member(m.key, SortKeys(m.value))
  }

  lemma {:induction false} SortMembersExact(ms: seq<Member>)
    ensures forall m | m in ms :: SortedMember(m) in SortMembers(ms)
    ensures forall x | x in SortMembers(ms) :: exists m | m in ms :: x == SortedMember(m)
    ensures DistinctKeys(ms) ==> Sorted(SortMembers(ms))
  {
    if ms != [] {
      var m, rest := SortedMember(ms[0]), SortMembers(ms[1..]);
      SortMembersExact(ms[1..]);
      InsertMembers(m, rest);
      assert ms == [ms[0]] + ms[1..];
      if DistinctKeys(ms) {
        InsertSorted(m, rest);
      }
    }
  }

  lemma {:induction false} LookupExact(ms: seq<Member>, k: string)
    ensures HasKey(ms, k) ==> Member(k, Lookup(ms, k)) in ms
    ensures DistinctKeys(ms) ==> forall m | m in ms :: HasKey(ms, m.key) && (m.key == k ==> m.value == Lookup(ms, k))
  {
    if ms != [] {
      var head, rest := ms[0], ms[1..];
      LookupExact(rest, k);
      HasKeyCons(head, rest);
      assert ms == [head] + rest;
      if DistinctKeys(ms) {
        forall m | m in ms
          ensures HasKey(ms, m.key) && (m.key == k ==> m.value == Lookup(ms, k))
        {
        }
      }
    }
  }

  /** Two sorted lists with the same members are the same list. */
  lemma {:induction false} SortedUnique(a: seq<Member>, b: seq<Member>)
    requires Sorted(a) && Sorted(b) && forall x :: x in a <==> x in b
    ensures a == b
  {
    EmptyAlike(a, b);
    if a != [] {
      assert a[0] in b;
      KeyLessTotal(a[0].key, b[0].key);
      assert a[0] == b[0] by {
        assert b[0] in a;
        var i :| 0 <= i < |a| && a[i] == b[0];
        var j :| 0 <= j < |b| && b[j] == a[0];
      }
      forall x
        ensures x in a[1..] <==> x in b[1..]
      {
        TailMember(a, x);
        TailMember(b, x);
      }
      SortedUnique(a[1..], b[1..]);
    }
  }

  lemma {:induction false} EmptyAlike(a: seq<Member>, b: seq<Member>)
    requires forall x :: x in a <==> x in b
    ensures a == [] <==> b == []
  {
    if a != [] {
      assert a[0] in b;
    }
    if b != [] {
      assert b[0] in a;
    }
  }

  lemma {:induction false} TailMember(a: seq<Member>, x: Member)
    requires a != [] && Sorted(a)
    ensures x in a[1..] <==> x in a && x != a[0]
  {
    KeyLessTotal(a[0].key, a[0].key);
    assert a == [a[0]] + a[1..];
  }

  lemma {:induction false} SortItemsExact(items: seq<Json>)
    ensures |SortItems(items)| == |items| && forall i | 0 <= i < |items| :: SortItems(items)[i] == SortKeys(items[i])
  {
    if items != [] {
      SortItemsExact(items[1..]);
    }
  }

  // ---- Well-formedness, member by member ----

  lemma {:induction false} MembersForm(ms: seq<Member>)
    ensures MembersWellFormed(ms) <==> forall m | m in ms :: WellFormed(m.value)
  {
    if ms != [] {
      var head, rest := ms[0], ms[1..];
      MembersForm(rest);
      assert ms == [head] + rest;
      assert forall m :: m in ms <==> m == head || m in rest;
    }
  }

  lemma {:induction false} ItemsForm(items: seq<Json>)
    ensures AllWellFormed(items) <==> forall v | v in items :: WellFormed(v)
  {
    if items == [] {
    } else {
      var head, rest := items[0], items[1..];
      ItemsForm(rest);
      assert items == [head] + rest;
      if AllWellFormed(items) {
        forall v | v in items
          ensures WellFormed(v)
        {
        }
      } else {
        assert head in items && forall v | v in rest :: v in items;
      }
    }
  }

  lemma {:induction false} SortKeysWellFormed(v: Json)
    requires WellFormed(v)
    ensures WellFormed(SortKeys(v))
  {
    match v
    case Arr(items) =>
      ItemsForm(items);
      SortItemsExact(items);
      forall x | x in SortItems(items)
        ensures WellFormed(x)
      {
        var i :| 0 <= i < |items| && x == SortKeys(items[i]);
        assert items[i] in items;
        SortKeysWellFormed(items[i]);
      }
      ItemsForm(SortItems(items));
    case Obj(ms) =>
      MembersForm(ms);
      SortMembersExact(ms);
      SortedDistinct(SortMembers(ms));
      forall x | x in SortMembers(ms)
        ensures WellFormed(x.value)
      {
        var m :| m in ms && x == SortedMember(m);
        SortKeysWellFormed(m.value);
      }
      MembersForm(SortMembers(ms));
    case _ =>
  }

  lemma {:induction false} SortedDistinct(ms: seq<Member>)
    requires Sorted(ms)
    ensures DistinctKeys(ms)
  {
    forall i, j | 0 <= i < j < |ms|
      ensures ms[i].key != ms[j].key
    {
      KeyLessTotal(ms[i].key, ms[j].key);
    }
  }

  // ---- The canonical form decides equality up to key order ----

  lemma {:induction false} SortKeysDecides(v: Json, w: Json)
    requires WellFormed(v) && WellFormed(w)
    ensures SortKeys(v) == SortKeys(w) <==> SameUpToOrder(v, w)
    decreases v
  {
    match (v, w)
    case (Arr(a), Arr(b)) =>
      ItemsForm(a);
      ItemsForm(b);
      forall i | 0 <= i < |a| && i < |b|
        ensures SortKeys(a[i]) == SortKeys(b[i]) <==> SameUpToOrder(a[i], b[i])
      {
        assert a[i] in a && b[i] in b;
        SortKeysDecides(a[i], b[i]);
      }
      ItemsDecide(a, b);
    case (Obj(a), Obj(b)) =>
      MembersForm(a);
      MembersForm(b);
      forall m | m in a && HasKey(b, m.key)
        ensures SortKeys(m.value) == SortKeys(Lookup(b, m.key)) <==> SameUpToOrder(m.value, Lookup(b, m.key))
      {
        LookupExact(b, m.key);
        SortKeysDecides(m.value, Lookup(b, m.key));
      }
      MembersDecide(a, b);
    case _ =>
  }

  lemma {:induction false} ItemsDecide(a: seq<Json>, b: seq<Json>)
    requires forall i | 0 <= i < |a| && i < |b| :: SortKeys(a[i]) == SortKeys(b[i]) <==> SameUpToOrder(a[i], b[i])
    ensures SortItems(a) == SortItems(b) <==> SameUpToOrder(Arr(a), Arr(b))
  {
    SortItemsExact(a);
    SortItemsExact(b);
    if SortItems(a) == SortItems(b) {
      forall i | 0 <= i < |a|
        ensures SortKeys(a[i]) == SortKeys(b[i])
      {
        assert SortItems(a)[i] == SortItems(b)[i];
      }
    }
  }

  lemma {:induction false} MembersDecide(a: seq<Member>, b: seq<Member>)
    requires DistinctKeys(a) && DistinctKeys(b)
    ensures SortMembers(a) == SortMembers(b) <==>
              && (forall m | m in a :: HasKey(b, m.key) && SortKeys(m.value) == SortKeys(Lookup(b, m.key)))
              && (forall n | n in b :: HasKey(a, n.key))
  {
    SortMembersExact(a);
    SortMembersExact(b);
    if SortMembers(a) == SortMembers(b) {
      forall m | m in a
        ensures HasKey(b, m.key) && SortKeys(m.value) == SortKeys(Lookup(b, m.key))
      {
        var n :| n in b && SortedMember(m) == SortedMember(n);
        LookupExact(b, m.key);
      }
      forall n | n in b
        ensures HasKey(a, n.key)
      {
        var m :| m in a && SortedMember(n) == SortedMember(m);
        LookupExact(a, n.key);
      }
    } else if && (forall m | m in a :: HasKey(b, m.key) && SortKeys(m.value) == SortKeys(Lookup(b, m.key)))
              && (forall n | n in b :: HasKey(a, n.key)) {
      forall x
        ensures x in SortMembers(a) <==> x in SortMembers(b)
      {
        if x in SortMembers(a) {
          var m :| m in a && x == SortedMember(m);
          LookupExact(b, m.key);
          assert x == SortedMember(Member(m.key, Lookup(b, m.key)));
        }
        if x in SortMembers(b) {
          var n :| n in b && x == SortedMember(n);
          LookupExact(a, n.key);
          LookupExact(b, n.key);
          assert x == SortedMember(Member(n.key, Lookup(a, n.key)));
        }
      }
      SortedUnique(SortMembers(a), SortMembers(b));
    }
  }

  /** Sorting keys changes nothing but the order of keys. */
  lemma {:induction false} SortKeysOnlyReorders(v: Json)
    requires WellFormed(v)
    ensures SameUpToOrder(SortKeys(v), v)
  {
    match v
    case Arr(items) =>
      SortItemsExact(items);
      ItemsForm(items);
      forall i | 0 <= i < |items|
        ensures SameUpToOrder(SortItems(items)[i], items[i])
      {
        assert items[i] in items;
        SortKeysOnlyReorders(items[i]);
      }
    case Obj(ms) =>
      SortMembersExact(ms);
      MembersForm(ms);
      forall x | x in SortMembers(ms)
        ensures HasKey(ms, x.key) && SameUpToOrder(x.value, Lookup(ms, x.key))
      {
        var m :| m in ms && x == SortedMember(m);
        LookupExact(ms, x.key);
        SortKeysOnlyReorders(m.value);
      }
      forall m | m in ms
        ensures HasKey(SortMembers(ms), m.key)
      {
        assert SortedMember(m) in SortMembers(ms);
      }
    case _ =>
  }

  lemma {:induction false} SortedDumpsDecides(v: Json, w: Json)
    requires WellFormed(v) && WellFormed(w)
    ensures SortedDumps(v) == SortedDumps(w) <==> SameUpToOrder(v, w)
  {
    SortKeysWellFormed(v);
    SortKeysWellFormed(w);
    LoadsOfDumps(SortKeys(v));
    LoadsOfDumps(SortKeys(w));
    SortKeysDecides(v, w);
  }

  // ---- What the guard relies on ----

  /** Argument texts that are JSON get the same canonical form iff their values differ only in key order. */
  lemma {:induction false} CanonicalDecides(s: string, t: string)
    requires Loads(s).Some? && Loads(t).Some?
    ensures Canonical(Str(s)) == Canonical(Str(t)) <==> SameUpToOrder(Loads(s).value, Loads(t).value)
  {
    ParseWellFormed(JsonText, s);
    ParseWellFormed(JsonText, t);
    SortedDumpsDecides(Loads(s).value, Loads(t).value);
  }

  /** Arguments given as a value and as any JSON text of that value are the same to the guard. */
  lemma {:induction false} CanonicalOfText(v: Json, style: seq<Piece>, tail: string)
    requires WellFormed(v) && !v.Str?
    requires |style| == |TokensOf(v)| && LegalStyle(JsonText, style) && IsGapText(JsonText, tail)
    ensures Canonical(Str(LayOut(JsonText, TokensOf(v), style) + tail)) == Canonical(v)
  {
    ParseOfLayout(JsonText, v, style, tail);
  }

  /** Canonical forms of JSON are fixed points. */
  lemma {:induction false} CanonicalIdempotent(s: string)
    requires Loads(s).Some?
    ensures Canonical(Str(Canonical(Str(s)))) == Canonical(Str(s))
  {
    var v := Loads(s).value;
    ParseWellFormed(JsonText, s);
    SortKeysWellFormed(v);
    LoadsOfDumps(SortKeys(v));
    SortKeysOnlyReorders(v);
    SortKeysDecides(SortKeys(v), v);
  }

  /** Text that is not JSON: its canonical form is a fixed point iff stripping leaves no JSON, or leaves it canonical. */
  lemma {:induction false} NonJsonIdempotentIff(s: string)
    requires Loads(s).None?
    ensures Canonical(Str(Canonical(Str(s)))) == Canonical(Str(s)) <==>
              Loads(Strip(s)).None? || SortedDumps(Loads(Strip(s)).value) == Strip(s)
  {
    hide Loads, Strip, SortedDumps;
    StripTwice(s);
  }

  // ---- White space ----

  /** What follows a text is only white space as far as numbers and escapes are concerned. */
  predicate IsTail(tail: string) {
    tail != "" && IsSpace(tail[0])
  }

  lemma {:induction false} HexStays(s: string, tail: string)
    requires LexHex4(s).Some?
    ensures LexHex4(s + tail) == LexHex4(s)
  {
  }

  lemma {:induction false} UnescapeStays(s: string, tail: string)
    requires Unescape(JsonText, s).Some?
    ensures Unescape(JsonText, s + tail) == Unescape(JsonText, s)
  {
    assert (s + tail)[0] == s[0] && (s + tail)[1..] == s[1..] + tail;
    if s[0] == 'u' {
      UnicodeStays(s[1..], tail);
    }
  }

  lemma {:induction false} UnicodeStays(s: string, tail: string)
    requires LexUnicode(JsonText, s).Some?
    ensures LexUnicode(JsonText, s + tail) == LexUnicode(JsonText, s)
  {
    hide LexHex4;
    HexStays(s, tail);
    if StartsAt(s, 4, "\\u") {
      assert (s + tail)[4..6] == s[4..6] && (s + tail)[6..] == s[6..] + tail;
      if LexHex4(s[6..]).Some? {
        HexStays(s[6..], tail);
      }
    }
  }

  lemma {:induction false} StringStays(s: string, q: char, tail: string)
    requires LexString(UnescaperOf(JsonText), RawOf(JsonText), q, s).Some?
    ensures var r := LexString(UnescaperOf(JsonText), RawOf(JsonText), q, s).value;
            LexString(UnescaperOf(JsonText), RawOf(JsonText), q, s + tail) == Some((r.0, r.1 + tail))
    decreases |s|
  {
    hide Unescape, IsRaw;
    var t := s + tail;
    assert t[0] == s[0] && t[1..] == s[1..] + tail;
    if s[0] == q {
    } else if s[0] == '\\' {
      UnescapeStays(s[1..], tail);
      var used := Unescape(JsonText, s[1..]).value.1;
      StringStays(s[1 + used..], q, tail);
      assert t[1 + used..] == s[1 + used..] + tail;
    } else {
      StringStays(s[1..], q, tail);
    }
  }

  lemma {:induction false} RunStays(s: string, tail: string)
    requires tail != "" && !IsDigit(tail[0])
    ensures DigitRun(s + tail) == DigitRun(s)
  {
    if s == "" {
      assert s + tail == tail;
    } else {
      assert (s + tail)[0] == s[0] && (s + tail)[1..] == s[1..] + tail;
      RunStays(s[1..], tail);
    }
  }

  lemma {:induction false} NatStays(s: string, tail: string)
    requires s != "" && tail != "" && !IsDigit(tail[0])
    ensures LexNat(s + tail) == LexNat(s)
  {
    RunStays(s, tail);
    assert (s + tail)[0] == s[0] && (s + tail)[..DigitRun(s)] == s[..DigitRun(s)];
  }

  lemma {:induction false} IntStays(s: string, tail: string)
    requires LexInt(s).Some? && tail != "" && !IsDigit(tail[0])
    ensures LexInt(s + tail) == LexInt(s)
  {
    hide LexNat;
    assert (s + tail)[0] == s[0] && (s + tail)[1..] == s[1..] + tail;
    if s[0] == '-' {
      assert s[1..] != "" by {
        NoNumber();
      }
      NatStays(s[1..], tail);
    } else {
      NatStays(s, tail);
    }
  }

  lemma {:induction false} NoNumber()
    ensures LexNat("").None?
  {
  }

  lemma {:induction false} WordStays(s: string, tail: string)
    requires LexWord(JsonText, s).Some?
    ensures LexWord(JsonText, s + tail) == LexWord(JsonText, s)
  {
    var t, w := s + tail, Word(JsonText, LexWord(JsonText, s).value);
    assert t[0..|w|] == s[0..|w|];
    StartsAtChar(t, 0, "null", 0);
    StartsAtChar(t, 0, "true", 0);
    StartsAtChar(s, 0, w, 0);
  }

  function Joined(a: Option<seq<Token>>, b: Option<seq<Token>>): Option<seq<Token>> {
    if a.None? || b.None? then None else Some(a.value + b.value)
  }

  lemma {:induction false} JoinedNothing(b: Option<seq<Token>>)
    ensures Joined(Some([]), b) == b
  {
    assert b.Some? ==> [] + b.value == b.value;
  }

  lemma {:induction false} JoinedAfter(t: Token, a: Option<seq<Token>>, b: Option<seq<Token>>)
    ensures After(t, Joined(a, b)) == Joined(After(t, a), b)
  {
    if a.Some? && b.Some? {
      Assoc([t], a.value, b.value);
    }
  }

  lemma {:induction false} SpaceIsNoDigit(c: char)
    requires IsSpace(c)
    ensures !IsDigit(c)
  {
  }

  /** Text behind white space is read on its own. */
  lemma {:induction false} LexBehind(s: string, tail: string)
    requires Lex(JsonText, s).Some? && IsTail(tail)
    ensures Lex(JsonText, s + tail) == Joined(Lex(JsonText, s), Lex(JsonText, tail))
    decreases |s|
  {
    hide IsSpace, LexString, LexInt, LexWord, Word, UnescaperOf, RawOf;
    var t := s + tail;
    if s == "" {
      assert t == tail;
      JoinedNothing(Lex(JsonText, tail));
    } else {
      assert t[0] == s[0] && t[1..] == s[1..] + tail;
      if IsGap(JsonText, s[0]) {
        LexBehind(s[1..], tail);
      } else if IsPunct(s[0]) {
        LexBehind(s[1..], tail);
        JoinedAfter(Punct(s[0]), Lex(JsonText, s[1..]), Lex(JsonText, tail));
      } else if OpensString(JsonText, s[0]) {
        var r := LexString(UnescaperOf(JsonText), RawOf(JsonText), s[0], s[1..]).value;
        StringStays(s[1..], s[0], tail);
        LexBehind(r.1, tail);
        JoinedAfter(Atom(Str(r.0)), Lex(JsonText, r.1), Lex(JsonText, tail));
      } else if s[0] == '-' || IsDigit(s[0]) {
        var (n, used) := LexInt(s).value;
        SpaceIsNoDigit(tail[0]);
        IntStays(s, tail);
        assert t[used..] == s[used..] + tail;
        LexBehind(s[used..], tail);
        JoinedAfter(Atom(Int(n)), Lex(JsonText, s[used..]), Lex(JsonText, tail));
      } else {
        LexWordBehind(s, tail);
      }
    }
  }

  lemma {:induction false} LexWordBehind(s: string, tail: string)
    requires s != "" && Lex(JsonText, s).Some? && IsTail(tail) && !IsGap(JsonText, s[0]) && !IsPunct(s[0])
    requires !OpensString(JsonText, s[0]) && s[0] != '-' && !IsDigit(s[0])
    ensures Lex(JsonText, s + tail) == Joined(Lex(JsonText, s), Lex(JsonText, tail))
    decreases |s|, 0
  {
    hide IsSpace, LexString, LexInt, LexWord, UnescaperOf, RawOf;
    var t, v := s + tail, LexWord(JsonText, s).value;
    WordStays(s, tail);
    var k := |Word(JsonText, v)|;
    WordFits(s);
    assert t[0] == s[0] && t[k..] == s[k..] + tail;
    LexBehind(s[k..], tail);
    JoinedAfter(Atom(v), Lex(JsonText, s[k..]), Lex(JsonText, tail));
  }

  lemma {:induction false} WordFits(s: string)
    requires LexWord(JsonText, s).Some?
    ensures 0 < |Word(JsonText, LexWord(JsonText, s).value)| <= |s|
  {
  }

  /** White space alone is lexed iff it is JSON white space. */
  lemma {:induction false} LexSpace(gap: string, s: string)
    requires AllSpace(gap)
    ensures IsGapText(JsonText, gap) ==> Lex(JsonText, gap + s) == Lex(JsonText, s)
    ensures !IsGapText(JsonText, gap) ==> Lex(JsonText, gap + s).None?
  {
    if gap == "" {
      assert gap + s == s;
    } else {
      hide LexString, LexInt, LexWord, Word;
      assert (gap + s)[0] == gap[0] && (gap + s)[1..] == gap[1..] + s;
      if IsGap(JsonText, gap[0]) {
        LexSpace(gap[1..], s);
        assert forall i | 1 <= i < |gap| :: gap[i] == gap[1..][i - 1];
      } else {
        NoWordAt(gap + s);
      }
    }
  }

  /** Padding keeps a JSON text what it is iff it is JSON white space; any other padding makes it no JSON at all. */
  lemma {:induction false} PaddedLoads(lead: string, s: string, tail: string)
    requires Loads(s).Some? && AllSpace(lead) && AllSpace(tail)
    ensures Loads(lead + s + tail) ==
              if IsGapText(JsonText, lead) && IsGapText(JsonText, tail) then Loads(s) else None
  {
    hide Lex, ParseValue, IsGapText, IsSpace;
    Assoc(lead, s, tail);
    LexSpace(lead, s + tail);
    if tail == "" {
      assert s + tail == s;
      EmptyGap();
    } else {
      LexBehind(s, tail);
      LexSpace(tail, "");
      assert tail + "" == tail;
      NothingLexed();
      assert Lex(JsonText, s).value + [] == Lex(JsonText, s).value;
    }
  }

  lemma {:induction false} EmptyGap()
    ensures IsGapText(JsonText, "")
  {
  }

  lemma {:induction false} NothingLexed()
    ensures Lex(JsonText, "") == Some([]) && Loads("").None?
  {
  }

  lemma {:induction false} JsonNotBlank(s: string)
    requires Loads(s).Some?
    ensures Strip(s) != ""
  {
    assert s + "" == s;
    NothingLexed();
    if Strip(s) == "" {
      StripEmpty(s);
      LexSpace(s, "");
    }
  }

  /** White space around JSON is ignored iff it is JSON white space, or the text between is canonical already. */
  lemma {:induction false} PaddingIgnoredIff(lead: string, s: string, tail: string)
    requires Loads(s).Some? && AllSpace(lead) && AllSpace(tail)
    ensures Canonical(Str(lead + s + tail)) == Canonical(Str(s)) <==>
              (IsGapText(JsonText, lead) && IsGapText(JsonText, tail)) || Strip(s) == SortedDumps(Loads(s).value)
  {
    hide Loads, Strip, SortedDumps, IsGapText, IsSpace;
    PaddedLoads(lead, s, tail);
    JsonNotBlank(s);
    StripPadding(lead, s, tail);
  }

  /** Text that is not JSON, even when stripped, is never taken for a JSON value. */
  lemma {:induction false} NonJsonApart(s: string, v: Json)
    requires Loads(s).None? && Loads(Strip(s)).None? && WellFormed(v)
    ensures Canonical(Str(s)) != SortedDumps(v)
  {
    SortKeysWellFormed(v);
    LoadsOfDumps(SortKeys(v));
  }

  lemma {:induction false} StripTwice(s: string)
    ensures Strip(Strip(s)) == Strip(s)
  {
    var core := Strip(s);
    var lead, tail := StripShape(s);
    if core != "" {
      assert "" + core + "" == core;
      StripCore("", core, "");
    }
  }

  /**
   The gap between the two: Python strips white space that JSON does not allow, so padded text is not JSON but
   its canonical form is, and canonicalising that again changes it.
   */
  lemma {:induction false} PaddedJsonNotIdempotent()
    ensures Canonical(Str("\U{A0}[ ]")) == "[ ]" && Canonical(Str("[ ]")) == "[]"
  {
    StripPadded();
    NotJsonStart("\U{A0}[ ]");
    EmptyListTexts();
  }

  lemma {:induction false} StripPadded()
    ensures Strip("\U{A0}[ ]") == "[ ]"
  {
    assert "\U{A0}[ ]" == "\U{A0}" + "[ ]" + "";
    StripCore("\U{A0}", "[ ]", "");
  }

  lemma {:induction false} NotJsonStart(s: string)
    requires s != "" && s[0] == '\U{A0}'
    ensures Loads(s).None?
  {
    assert forall w: string :: w != "" && StartsAt(s, 0, w) ==> s[0..|w|][0] == s[0];
    assert Word(JsonText, Null)[0] == 'n' && Word(JsonText, Bool(true))[0] == 't' && Word(JsonText, Bool(false))[0] == 'f';
  }

  lemma {:induction false} EmptyListTexts()
    ensures Loads("[ ]") == Some(Arr([])) && Dumps(Arr([])) == "[]"
  {
    hide LayOut;
    var ts := [Punct('['), Punct(']')];
    assert TokensOf(Arr([])) == ts;
    var loose, dense := [Piece("", '"'), Piece(" ", '"')], DumpsStyle(ts);
    LayOutPair(ts, loose);
    LayOutPair(ts, dense);
    assert "[ ]" + "" == "[ ]";
    ParseOfLayout(JsonText, Arr([]), loose, "");
  }

  lemma {:induction false} LayOutPair(ts: seq<Token>, style: seq<Piece>)
    requires |ts| == |style| == 2 && ts == [Punct('['), Punct(']')]
    ensures LayOut(JsonText, ts, style) == style[0].gap + "[" + (style[1].gap + "]")
  {
    assert LayOut(JsonText, ts[1..], style[1..]) == style[1].gap + "]";
  }
}
