/**
 The grammar of JSON values and Python literals over tokens, as trees and how they are written, and the proof that
 the parser accepts exactly what the grammar writes.
 */
module JsonGrammar {
  import opened Text
  import opened Json
  import opened JsonRoundTrip

  /** A value as it is written: keys may be repeated, and Python allows a comma behind the last part. */
  datatype Tree = Leaf(v: Json) | List(items: seq<Tree>, trailing: bool) | Dict(pairs: seq<Pair>, trailing: bool)
  datatype Pair = Pair(key: string, value: Tree)

  predicate MayTrail(d: Dialect, trailing: bool, parts: nat) {
    trailing ==> d.PythonText? && parts > 0
  }

  predicate Allowed(d: Dialect, t: Tree)
    decreases t, 0
  {
    match t
    case Leaf(_) => true
    case List(items, trailing) => MayTrail(d, trailing, |items|) && AllAllowed(d, items)
    case Dict(pairs, trailing) => MayTrail(d, trailing, |pairs|) && PairsAllowed(d, pairs)
  }

  predicate AllAllowed(d: Dialect, items: seq<Tree>)
    decreases items, 1
  {
    items == [] || (Allowed(d, items[0]) && AllAllowed(d, items[1..]))
  }

  predicate PairsAllowed(d: Dialect, pairs: seq<Pair>)
    decreases pairs, 1
  {
    pairs == [] || (Allowed(d, pairs[0].value) && PairsAllowed(d, pairs[1..]))
  }

  function Trail(trailing: bool): seq<Token> {
    if trailing then [Punct(',')] else []
  }

  function Written(t: Tree): seq<Token>
    decreases t, 0
  {
    match t
    case Leaf(v) => [Atom(v)]
    case List(items, trailing) => [Punct('[')] + (WrittenItems(items) + (Trail(trailing) + [Punct(']')]))
    case Dict(pairs, trailing) => [Punct('{')] + (WrittenPairs(pairs) + (Trail(trailing) + [Punct('}')]))
  }

  function WrittenItems(items: seq<Tree>): seq<Token>
    decreases items, 1
  {
    if items == [] then []
    else if |items| == 1 then Written(items[0])
    else Written(items[0]) + ([Punct(',')] + WrittenItems(items[1..]))
  }

  function WrittenPairs(pairs: seq<Pair>): seq<Token>
    decreases pairs, 1
  {
    if pairs == [] then []
    else
      var one := [Atom(Str(pairs[0].key)), Punct(':')] + Written(pairs[0].value);
      if |pairs| == 1 then one else one + ([Punct(',')] + WrittenPairs(pairs[1..]))
  }

  /** The value that is written. Of repeated keys the last value counts. */
  function Meaning(t: Tree): Json
    decreases t, 0
  {
    match t
    case Leaf(v) => v
    case List(items, _) => Arr(Meanings(items))
    case Dict(pairs, _) => Obj(DictOf(PairMeanings(pairs)))
  }

  function Meanings(items: seq<Tree>): seq<Json>
    decreases items, 1
  {
    if items == [] then [] else [Meaning(items[0])] + Meanings(items[1..])
  }

  function PairMeanings(pairs: seq<Pair>): seq<Member>
    decreases pairs, 1
  {
    if pairs == [] then [] else [Member(pairs[0].key, Meaning(pairs[0].value))] + PairMeanings(pairs[1..])
  }

  // ---- What is written is accepted ----

  lemma {:induction false} WrittenStart(t: Tree)
    ensures Written(t) != [] && !Next(Written(t), ']') && !Next(Written(t), '}')
  {
  }

  lemma {:induction false} ItemsStart(items: seq<Tree>)
    requires items != []
    ensures WrittenItems(items) != [] && !Next(WrittenItems(items), ']')
  {
    hide Written;
    WrittenStart(items[0]);
  }

  lemma {:induction false} PairsStart(pairs: seq<Pair>)
    requires pairs != []
    ensures WrittenPairs(pairs) != [] && !Next(WrittenPairs(pairs), '}')
  {
    hide Written;
  }

  lemma {:induction false} Behind1(open: Token, body: seq<Token>, end: seq<Token>, rest: seq<Token>)
    ensures ([open] + (body + end) + rest)[0] == open && ([open] + (body + end) + rest)[1..] == body + (end + rest)
  {
  }

  lemma {:induction false} WrittenParsed(d: Dialect, t: Tree, rest: seq<Token>)
    requires Allowed(d, t)
    ensures ParseValue(d, Written(t) + rest) == Some((Meaning(t), rest))
    decreases t, 0
  {
    hide ParseItems, ParseMembers, WrittenItems, WrittenPairs, Meanings, PairMeanings, DictOf;
    var ts := Written(t) + rest;
    match t
    case Leaf(v) => assert ts[1..] == rest;
    case List(items, trailing) =>
      var end := Trail(trailing) + [Punct(']')];
      Behind1(Punct('['), WrittenItems(items), end, rest);
      if items == [] {
        NoItems();
        assert ts[2..] == rest;
      } else {
        ItemsStart(items);
        ItemsParsed(d, items, trailing, rest);
      }
    case Dict(pairs, trailing) =>
      var end := Trail(trailing) + [Punct('}')];
      Behind1(Punct('{'), WrittenPairs(pairs), end, rest);
      if pairs == [] {
        NoItems();
        assert ts[2..] == rest;
      } else {
        PairsStart(pairs);
        PairsParsed(d, pairs, trailing, rest);
      }
  }

  lemma {:induction false} NoItems()
    ensures WrittenItems([]) == [] && WrittenPairs([]) == [] && Meanings([]) == [] && PairMeanings([]) == [] && DictOf([]) == []
  {
  }

  lemma {:induction false} EndOf(trailing: bool, close: char, rest: seq<Token>)
    ensures var end := Trail(trailing) + [Punct(close)] + rest;
            if trailing then Next(end, ',') && Next(end[1..], close) && end[2..] == rest
            else Next(end, close) && end[1..] == rest
  {
  }

  /** What the parser makes of one item and the tokens behind it. */
  function ItemsFrom(d: Dialect, v: Json, end: seq<Token>): Parsed<seq<Json>> {
    if Next(end, ']') then Some(([v], end[1..]))
    else if Next(end, ',') then
      if d.PythonText? && Next(end[1..], ']') then Some(([v], end[2..]))
      else (match ParseItems(d, end[1..]) case None => None case Some((vs, rest)) => Some(([v] + vs, rest)))
    else None
  }

  lemma {:induction false} ItemsStep(d: Dialect, ts: seq<Token>, v: Json, end: seq<Token>)
    requires ParseValue(d, ts) == Some((v, end))
    ensures ParseItems(d, ts) == ItemsFrom(d, v, end)
  {
    hide ParseValue, ParseMembers;
  }

  function PairsFrom(d: Dialect, m: Member, end: seq<Token>): Parsed<seq<Member>> {
    if Next(end, '}') then Some(([m], end[1..]))
    else if Next(end, ',') then
      if d.PythonText? && Next(end[1..], '}') then Some(([m], end[2..]))
      else (match ParseMembers(d, end[1..]) case None => None case Some((ms, rest)) => Some(([m] + ms, rest)))
    else None
  }

  lemma {:induction false} PairsStep(d: Dialect, k: string, value: seq<Token>, v: Json, end: seq<Token>)
    requires ParseValue(d, value) == Some((v, end))
    ensures ParseMembers(d, [Atom(Str(k)), Punct(':')] + value) == PairsFrom(d, Member(k, v), end)
  {
    hide ParseValue, ParseItems;
    var ts := [Atom(Str(k)), Punct(':')] + value;
    assert ts[2..] == value && ts[0] == Atom(Str(k)) && ts[1] == Punct(':');
  }

  lemma {:induction false} ItemsParsed(d: Dialect, items: seq<Tree>, trailing: bool, rest: seq<Token>)
    requires items != [] && AllAllowed(d, items) && (trailing ==> d.PythonText?)
    ensures ParseItems(d, WrittenItems(items) + (Trail(trailing) + [Punct(']')] + rest)) == Some((Meanings(items), rest))
    decreases items, 1
  {
    hide Written, Meaning, ParseValue, ParseMembers, ParseItems, Trail;
    var t, end := items[0], Trail(trailing) + [Punct(']')] + rest;
    if |items| == 1 {
      NoItems();
      WrittenParsed(d, t, end);
      EndOf(trailing, ']', rest);
      ItemsStep(d, Written(t) + end, Meaning(t), end);
      assert items[1..] == [] && [Meaning(t)] + [] == [Meaning(t)];
    } else {
      var more := WrittenItems(items[1..]) + end;
      assert ([Punct(',')] + more)[1..] == more;
      WrittenParsed(d, t, [Punct(',')] + more);
      ItemsStep(d, Written(t) + ([Punct(',')] + more), Meaning(t), [Punct(',')] + more);
      ItemsStart(items[1..]);
      ItemsParsed(d, items[1..], trailing, rest);
      assert WrittenItems(items) + end == Written(t) + ([Punct(',')] + more);
    }
  }

  lemma {:induction false} PairsParsed(d: Dialect, pairs: seq<Pair>, trailing: bool, rest: seq<Token>)
    requires pairs != [] && PairsAllowed(d, pairs) && (trailing ==> d.PythonText?)
    ensures ParseMembers(d, WrittenPairs(pairs) + (Trail(trailing) + [Punct('}')] + rest)) == Some((PairMeanings(pairs), rest))
    decreases pairs, 1
  {
    hide Written, Meaning, ParseValue, ParseItems, ParseMembers, Trail;
    var p, end := pairs[0], Trail(trailing) + [Punct('}')] + rest;
    var key, body := [Atom(Str(p.key)), Punct(':')], Written(p.value);
    if |pairs| == 1 {
      NoItems();
      WrittenParsed(d, p.value, end);
      EndOf(trailing, '}', rest);
      PairsStep(d, p.key, body + end, Meaning(p.value), end);
      Assoc(key, body, end);
      assert pairs[1..] == [] && [Member(p.key, Meaning(p.value))] + [] == [Member(p.key, Meaning(p.value))];
    } else {
      var more := WrittenPairs(pairs[1..]) + end;
      assert ([Punct(',')] + more)[1..] == more;
      WrittenParsed(d, p.value, [Punct(',')] + more);
      PairsStep(d, p.key, body + ([Punct(',')] + more), Meaning(p.value), [Punct(',')] + more);
      PairsStart(pairs[1..]);
      PairsParsed(d, pairs[1..], trailing, rest);
      FourJoined(key, body, WrittenPairs(pairs[1..]), end);
    }
  }

  lemma {:induction false} FourJoined(key: seq<Token>, body: seq<Token>, more: seq<Token>, end: seq<Token>)
    ensures key + body + ([Punct(',')] + more) + end == key + (body + ([Punct(',')] + (more + end)))
  {
  }

  // ---- What is accepted was written ----

  lemma {:induction false} TreeOf(d: Dialect, ts: seq<Token>) returns (t: Tree)
    requires ParseValue(d, ts).Some?
    ensures Allowed(d, t) && Meaning(t) == ParseValue(d, ts).value.0 && ts == Written(t) + ParseValue(d, ts).value.1
    decreases |ts|, 0
  {
    hide ParseItems, ParseMembers, WrittenItems, WrittenPairs, Meanings, PairMeanings, DictOf, AllAllowed, PairsAllowed, Trail;
    NothingAllowed(d);
    NoItems();
    match ts[0]
    case Atom(v) =>
      t := Leaf(v);
      assert ts == [ts[0]] + ts[1..];
    case Punct(c) =>
      if c == '[' {
        if Next(ts[1..], ']') {
          t := List([], false);
          EmptyRead(ts, '[', ']');
        } else {
          var items, trailing := ItemsOf(d, ts[1..]);
          t := List(items, trailing);
          BodyRead(ts, WrittenItems(items), Trail(trailing) + [Punct(']')], ParseItems(d, ts[1..]).value.1);
        }
      } else {
        if Next(ts[1..], '}') {
          t := Dict([], false);
          EmptyRead(ts, '{', '}');
        } else {
          var pairs, trailing := PairsOf(d, ts[1..]);
          t := Dict(pairs, trailing);
          BodyRead(ts, WrittenPairs(pairs), Trail(trailing) + [Punct('}')], ParseMembers(d, ts[1..]).value.1);
        }
      }
  }

  lemma {:induction false} EmptyRead(ts: seq<Token>, open: char, close: char)
    requires ts != [] && ts[0] == Punct(open) && Next(ts[1..], close)
    ensures ts == [Punct(open)] + ([] + (Trail(false) + [Punct(close)])) + ts[2..]
  {
  }

  lemma {:induction false} BodyRead(ts: seq<Token>, body: seq<Token>, end: seq<Token>, rest: seq<Token>)
    requires ts != [] && ts[1..] == body + (end + rest)
    ensures ts == [ts[0]] + (body + end) + rest
  {
    assert ts == [ts[0]] + ts[1..];
  }

  lemma {:induction false} NothingAllowed(d: Dialect)
    ensures AllAllowed(d, []) && PairsAllowed(d, [])
  {
  }

  lemma {:induction false} EndRead(end: seq<Token>, trailing: bool, close: char)
    requires if trailing then Next(end, ',') && Next(end[1..], close) else Next(end, close)
    ensures end == Trail(trailing) + [Punct(close)] + if trailing then end[2..] else end[1..]
  {
  }

  lemma {:induction false} OneItem(t: Tree)
    ensures WrittenItems([t]) == Written(t) && Meanings([t]) == [Meaning(t)]
    ensures forall d :: AllAllowed(d, [t]) <==> Allowed(d, t)
  {
    hide Written, Meaning;
    assert [t][1..] == [];
    forall d: Dialect
      ensures AllAllowed(d, [t]) <==> Allowed(d, t)
    {
      assert AllAllowed(d, []);
    }
  }

  lemma {:induction false} MoreItems(t: Tree, more: seq<Tree>)
    requires more != []
    ensures WrittenItems([t] + more) == Written(t) + ([Punct(',')] + WrittenItems(more)) && Meanings([t] + more) == [Meaning(t)] + Meanings(more)
    ensures forall d :: AllAllowed(d, [t] + more) <==> Allowed(d, t) && AllAllowed(d, more)
  {
    hide Written, Meaning, Allowed;
    assert ([t] + more)[1..] == more;
  }

  lemma {:induction false} ItemsOf(d: Dialect, ts: seq<Token>) returns (items: seq<Tree>, trailing: bool)
    requires ParseItems(d, ts).Some?
    ensures items != [] && AllAllowed(d, items) && (trailing ==> d.PythonText?) && Meanings(items) == ParseItems(d, ts).value.0
    ensures ts == WrittenItems(items) + (Trail(trailing) + [Punct(']')] + ParseItems(d, ts).value.1)
    decreases |ts|, 1
  {
    hide Written, Meaning, ParseValue, ParseMembers, Trail, WrittenItems, Meanings, AllAllowed, Allowed;
    var t := TreeOf(d, ts);
    var end := ParseValue(d, ts).value.1;
    if Next(end, ']') || (d.PythonText? && Next(end[1..], ']')) {
      trailing := !Next(end, ']');
      items := [t];
      OneItem(t);
      EndRead(end, trailing, ']');
    } else {
      var more;
      more, trailing := ItemsOf(d, end[1..]);
      items := [t] + more;
      MoreItems(t, more);
      CommaJoined(Written(t), end, WrittenItems(more), Trail(trailing) + [Punct(']')] + ParseItems(d, ts).value.1);
    }
  }

  lemma {:induction false} CommaJoined(one: seq<Token>, end: seq<Token>, more: seq<Token>, tail: seq<Token>)
    requires Next(end, ',') && end[1..] == more + tail
    ensures one + end == one + ([Punct(',')] + more) + tail
  {
    assert end == [Punct(',')] + end[1..];
  }

  lemma {:induction false} OnePair(p: Pair)
    ensures WrittenPairs([p]) == [Atom(Str(p.key)), Punct(':')] + Written(p.value)
    ensures PairMeanings([p]) == [Member(p.key, Meaning(p.value))]
    ensures forall d :: PairsAllowed(d, [p]) <==> Allowed(d, p.value)
  {
    hide Written, Meaning;
    assert [p][1..] == [];
    forall d: Dialect
      ensures PairsAllowed(d, [p]) <==> Allowed(d, p.value)
    {
      assert PairsAllowed(d, []);
    }
  }

  lemma {:induction false} MorePairs(p: Pair, more: seq<Pair>)
    requires more != []
    ensures WrittenPairs([p] + more) == [Atom(Str(p.key)), Punct(':')] + Written(p.value) + ([Punct(',')] + WrittenPairs(more))
    ensures PairMeanings([p] + more) == [Member(p.key, Meaning(p.value))] + PairMeanings(more)
    ensures forall d :: PairsAllowed(d, [p] + more) <==> Allowed(d, p.value) && PairsAllowed(d, more)
  {
    hide Written, Meaning, Allowed;
    assert ([p] + more)[1..] == more;
  }

  lemma {:induction false} PairsOf(d: Dialect, ts: seq<Token>) returns (pairs: seq<Pair>, trailing: bool)
    requires ParseMembers(d, ts).Some?
    ensures pairs != [] && PairsAllowed(d, pairs) && (trailing ==> d.PythonText?) && PairMeanings(pairs) == ParseMembers(d, ts).value.0
    ensures ts == WrittenPairs(pairs) + (Trail(trailing) + [Punct('}')] + ParseMembers(d, ts).value.1)
    decreases |ts|, 1
  {
    hide Written, Meaning, ParseValue, ParseItems, Trail, WrittenPairs, PairMeanings, PairsAllowed, Allowed;
    var t := TreeOf(d, ts[2..]);
    var end, key := ParseValue(d, ts[2..]).value.1, [Atom(Str(ts[0].v.s)), Punct(':')];
    var p := Pair(ts[0].v.s, t);
    assert ts == key + ts[2..];
    if Next(end, '}') || (d.PythonText? && Next(end[1..], '}')) {
      trailing := !Next(end, '}');
      pairs := [p];
      OnePair(p);
      EndRead(end, trailing, '}');
      Assoc(key, Written(t), end);
    } else {
      var more;
      more, trailing := PairsOf(d, end[1..]);
      pairs := [p] + more;
      MorePairs(p, more);
      Assoc(key, Written(t), end);
      CommaJoined(key + Written(t), end, WrittenPairs(more), Trail(trailing) + [Punct('}')] + ParseMembers(d, ts).value.1);
    }
  }

  // ---- The grammar decides ----

  /** Some tree of the grammar is written as these tokens, and means this value. */
  ghost predicate Derives(d: Dialect, ts: seq<Token>, v: Json) {
    exists t :: Allowed(d, t) && Written(t) == ts && Meaning(t) == v
  }

  /** A text is read as a value iff its tokens are those of a tree of the grammar with that meaning. */
  lemma {:induction false} ParseIff(d: Dialect, s: string, v: Json)
    ensures Parse(d, s) == Some(v) <==> Lex(d, s).Some? && Derives(d, Lex(d, s).value, v)
  {
    hide Lex, ParseValue, Written, Meaning, Allowed;
    if Parse(d, s) == Some(v) {
      var ts := Lex(d, s).value;
      var t := TreeOf(d, ts);
      assert Written(t) + [] == Written(t);
    }
    if Lex(d, s).Some? && Derives(d, Lex(d, s).value, v) {
      var t :| Allowed(d, t) && Written(t) == Lex(d, s).value && Meaning(t) == v;
      WrittenParsed(d, t, []);
      assert Written(t) + [] == Written(t);
    }
  }

  // ---- Repeated keys ----

  /** The last value that is written for a key. */
  predicate IsLast(pairs: seq<Member>, i: nat) {
    i < |pairs| && forall j | i < j < |pairs| :: pairs[j].key != pairs[i].key
  }

  lemma {:induction false} PutExact(members: seq<Member>, k: string, v: Json, m: Member)
    requires DistinctKeys(members)
    ensures m in Put(members, k, v) <==> m == Member(k, v) || (m.key != k && m in members)
  {
    if members != [] {
      var first, rest := members[0], members[1..];
      assert members == [first] + rest;
      if first.key == k {
        assert forall x | x in rest :: x.key != k by {
          forall x | x in rest
            ensures x.key != k
          {
            var j :| 0 <= j < |rest| && rest[j] == x;
            assert members[0].key != members[1 + j].key;
          }
        }
      } else {
        PutExact(rest, k, v, m);
      }
    }
  }

  /** A dict holds, for every key that is written, the last value written for it, and nothing else. */
  lemma {:induction false} DictOfExact(pairs: seq<Member>, m: Member)
    ensures m in DictOf(pairs) <==> exists i: nat :: IsLast(pairs, i) && pairs[i] == m
    ensures DistinctKeys(DictOf(pairs))
  {
    hide Put, DistinctKeys;
    if pairs == [] {
      NothingDistinct();
    } else {
      var n := |pairs| - 1;
      var init, last := pairs[..n], pairs[n];
      DictOfExact(init, m);
      PutExact(DictOf(init), last.key, last.value, m);
      PutDistinct(DictOf(init), last.key, last.value);
      assert IsLast(pairs, n);
      forall i: nat | i < n
        ensures IsLast(pairs, i) <==> IsLast(init, i) && init[i].key != last.key
      {
      }
    }
  }

  lemma {:induction false} NothingDistinct()
    ensures DistinctKeys([])
  {
  }

  lemma {:induction false} PutDistinct(members: seq<Member>, k: string, v: Json)
    requires DistinctKeys(members)
    ensures DistinctKeys(Put(members, k, v))
  {
    if members != [] && members[0].key != k {
      var first, rest := members[0], members[1..];
      PutDistinct(rest, k, v);
      var put := Put(rest, k, v);
      forall i | 0 <= i < |put|
        ensures put[i].key != first.key
      {
        assert put[i] in put;
        PutExact(rest, k, v, put[i]);
        if put[i] in rest {
          var j :| 0 <= j < |rest| && rest[j] == put[i];
          assert members[0].key != members[1 + j].key;
        }
      }
    }
  }
}
