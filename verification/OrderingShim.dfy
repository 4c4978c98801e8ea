/**
 The ordering shim: some models reject a user turn right behind a tool turn, so an assistant turn is put
 between them.
 */
module OrderingShim {
  import opened Text
  import opened RepeatGuard

  const BRIDGE := Message("assistant", Some("..."), [])

  /** A user turn right behind a tool turn. */
  predicate Clash(a: Message, b: Message) {
    a.role == "tool" && b.role == "user"
  }

  function Clashes(msgs: seq<Message>): nat {
    if |msgs| < 2 then 0
    else Clashes(msgs[..|msgs| - 1]) + if Clash(msgs[|msgs| - 2], msgs[|msgs| - 1]) then 1 else 0
  }

  ghost predicate ClashFree(msgs: seq<Message>) {
    forall i | 0 <= i < |msgs| - 1 :: !Clash(msgs[i], msgs[i + 1])
  }

  /** What the shim makes of the messages: a bridge inside every clash. */
  function Shim(msgs: seq<Message>): seq<Message> {
    if msgs == [] then []
    else
      var n := |msgs| - 1;
      Shim(msgs[..n]) + (if n > 0 && Clash(msgs[n - 1], msgs[n]) then [BRIDGE] else []) + [msgs[n]]
  }

  class RequestData {
    var messages: seq<Message>

    /** `async_pre_call_hook` */
    method PreCallHook()
      modifies this
      ensures messages == Shim(old(messages))
    {
      if messages == [] {
        return;
      }
      var fixed: seq<Message> := [];
      var i := 0;
      while i < |messages|
        invariant i <= |messages| && messages == old(messages)
        invariant fixed == Shim(messages[..i]) + Pending(messages, i)
      {
        assert messages[..i + 1][..i] == messages[..i];
        fixed := fixed + [messages[i]];
        if messages[i].role == "tool" && i + 1 < |messages| && messages[i + 1].role == "user" {
          fixed := fixed + [BRIDGE];
        }
        i := i + 1;
      }
      assert messages[..i] == messages;
      messages := fixed;
    }
  }

  /** The bridge already appended for the message that comes next. */
  ghost function Pending(msgs: seq<Message>, i: nat): seq<Message>
    requires i <= |msgs|
  {
    if 0 < i < |msgs| && Clash(msgs[i - 1], msgs[i]) then [BRIDGE] else []
  }

  // ---- A minimal repair ----

  /** The repaired messages with a mark on the inserted ones. */
  function Marked(msgs: seq<Message>): seq<(Message, bool)> {
    if msgs == [] then []
    else
      var n := |msgs| - 1;
      Marked(msgs[..n]) + MarkedBridge(msgs) + [(msgs[n], false)]
  }

  /** The bridge in front of the last message, if it needs one. */
  function MarkedBridge(msgs: seq<Message>): seq<(Message, bool)>
    requires msgs != []
  {
    var n := |msgs| - 1;
    if n > 0 && Clash(msgs[n - 1], msgs[n]) then [(BRIDGE, true)] else []
  }

  function AllOf(marked: seq<(Message, bool)>): seq<Message> {
    seq(|marked|, i requires 0 <= i < |marked| => marked[i].0)
  }

  function Kept(marked: seq<(Message, bool)>): seq<Message> {
    if marked == [] then []
    else Kept(marked[..|marked| - 1]) + if marked[|marked| - 1].1 then [] else [marked[|marked| - 1].0]
  }

  lemma {:induction false} KeptConcat(a: seq<(Message, bool)>, b: seq<(Message, bool)>)
    ensures Kept(a + b) == Kept(a) + Kept(b)
  {
    if b == [] {
      assert a + b == a;
    } else {
      var n := |b| - 1;
      KeptConcat(a, b[..n]);
      assert (a + b)[..|a + b| - 1] == a + b[..n];
      Assoc(Kept(a), Kept(b[..n]), if b[n].1 then [] else [b[n].0]);
    }
  }

  lemma {:induction false} KeptNothing()
    ensures Kept([]) == []
  {
  }

  lemma {:induction false} KeptLast(msgs: seq<Message>)
    requires msgs != []
    ensures Kept(MarkedBridge(msgs)) == [] && Kept([(msgs[|msgs| - 1], false)]) == [msgs[|msgs| - 1]]
  {
    assert [(BRIDGE, true)][..0] == [] && [(msgs[|msgs| - 1], false)][..0] == [];
  }

  /** Taking the bridges out again gives back the messages exactly. */
  lemma {:induction false} BridgesOut(msgs: seq<Message>)
    ensures Kept(Marked(msgs)) == msgs
  {
    hide MarkedBridge, Kept;
    if msgs == [] {
      KeptNothing();
    } else {
      var n := |msgs| - 1;
      BridgesOut(msgs[..n]);
      KeptConcat(Marked(msgs[..n]) + MarkedBridge(msgs), [(msgs[n], false)]);
      KeptConcat(Marked(msgs[..n]), MarkedBridge(msgs));
      KeptLast(msgs);
      assert msgs[..n] + [] + [msgs[n]] == msgs;
    }
  }

  lemma {:induction false} AllOfConcat(a: seq<(Message, bool)>, b: seq<(Message, bool)>)
    ensures AllOf(a + b) == AllOf(a) + AllOf(b)
  {
  }

  lemma {:induction false} AllOfLast(msgs: seq<Message>)
    requires msgs != []
    ensures var n := |msgs| - 1;
            && AllOf(MarkedBridge(msgs)) == (if n > 0 && Clash(msgs[n - 1], msgs[n]) then [BRIDGE] else [])
            && AllOf([(msgs[n], false)]) == [msgs[n]]
  {
    hide Clash;
  }

  /** Marked messages without their marks are the shim's. */
  lemma {:induction false} MarkedIsShim(msgs: seq<Message>)
    ensures AllOf(Marked(msgs)) == Shim(msgs)
  {
    if msgs == [] {
      assert AllOf([]) == [];
    } else {
      hide AllOf, MarkedBridge, Clash;
      var n := |msgs| - 1;
      MarkedIsShim(msgs[..n]);
      AllOfConcat(Marked(msgs[..n]), MarkedBridge(msgs));
      AllOfConcat(Marked(msgs[..n]) + MarkedBridge(msgs), [(msgs[n], false)]);
      AllOfLast(msgs);
    }
  }

  /** Only bridges are marked: assistant turns that say `...` and call nothing. */
  lemma {:induction false} BridgesOnly(msgs: seq<Message>, x: (Message, bool))
    requires x in Marked(msgs) && x.1
    ensures x.0 == Message("assistant", Some("..."), [])
  {
    hide Clash;
    var n := |msgs| - 1;
    if x in Marked(msgs[..n]) {
      BridgesOnly(msgs[..n], x);
    }
  }

  /** The shim removes every clash, at the price of one message each. */
  lemma {:induction false} ShimRepairs(msgs: seq<Message>)
    ensures ClashFree(Shim(msgs)) && |Shim(msgs)| == |msgs| + Clashes(msgs)
    ensures msgs != [] ==> Shim(msgs) != [] && Shim(msgs)[|Shim(msgs)| - 1] == msgs[|msgs| - 1]
  {
    if msgs != [] {
      ShimRepairs(msgs[..|msgs| - 1]);
    }
  }

  /** No user turn is left right behind a tool turn, and a history without such a place is not touched. */
  lemma {:induction false} NoUserBehindTool(msgs: seq<Message>)
    ensures forall i | 0 < i < |Shim(msgs)| :: !(Shim(msgs)[i - 1].role == "tool" && Shim(msgs)[i].role == "user")
    ensures (forall i | 0 < i < |msgs| :: !(msgs[i - 1].role == "tool" && msgs[i].role == "user")) <==> Shim(msgs) == msgs
  {
    hide Shim;
    ShimRepairs(msgs);
    forall i | 0 < i < |Shim(msgs)|
      ensures !(Shim(msgs)[i - 1].role == "tool" && Shim(msgs)[i].role == "user")
    {
      assert !Clash(Shim(msgs)[i - 1], Shim(msgs)[i - 1 + 1]);
    }
    if forall i | 0 < i < |msgs| :: !(msgs[i - 1].role == "tool" && msgs[i].role == "user") {
      ClashFreeUnchanged(msgs);
    }
  }

  lemma {:induction false} ClashFreeUnchanged(msgs: seq<Message>)
    requires ClashFree(msgs)
    ensures Shim(msgs) == msgs && Clashes(msgs) == 0
  {
    if msgs != [] {
      var n := |msgs| - 1;
      ClashFreeUnchanged(msgs[..n]);
      assert n > 0 ==> !Clash(msgs[n - 1], msgs[n - 1 + 1]);
    }
  }

  lemma {:induction false} ShimIdempotent(msgs: seq<Message>)
    ensures Shim(Shim(msgs)) == Shim(msgs)
  {
    ShimRepairs(msgs);
    ClashFreeUnchanged(Shim(msgs));
  }

  /** `fixed` is `msgs` with messages inserted anywhere. */
  ghost predicate Extends(fixed: seq<Message>, msgs: seq<Message>)
    decreases |fixed|
  {
    if fixed == [] then msgs == []
    else
      var f := fixed[..|fixed| - 1];
      || Extends(f, msgs)
      || (msgs != [] && msgs[|msgs| - 1] == fixed[|fixed| - 1] && Extends(f, msgs[..|msgs| - 1]))
  }

  /** No repair by insertion is shorter than the shim's. */
  lemma {:induction false} ShimMinimal(fixed: seq<Message>, msgs: seq<Message>)
    requires Extends(fixed, msgs) && ClashFree(fixed)
    ensures |fixed| >= |Shim(msgs)|
    ensures msgs != [] && fixed != [] && fixed[|fixed| - 1] != msgs[|msgs| - 1] ==> |fixed| > |Shim(msgs)|
    decreases |fixed|
  {
    ShimRepairs(msgs);
    if fixed != [] && msgs != [] {
      var k, n := |fixed| - 1, |msgs| - 1;
      var f, m := fixed[..k], msgs[..n];
      if Extends(f, msgs) {
        ShimMinimal(f, msgs);
      } else {
        ShimMinimal(f, m);
        ShimRepairs(m);
        if n > 0 && Clash(msgs[n - 1], msgs[n]) {
          assert f != [] by {
            assert m != [];
          }
          assert fixed[k - 1] != msgs[n - 1] by {
            assert !Clash(fixed[k - 1], fixed[k - 1 + 1]);
          }
        }
      }
    }
  }

  // ---- The guard does not notice the shim ----

  /** Every bridge lies behind a user turn, where the backward walk has stopped before. */
  lemma {:induction false} ShimKeepsCount(msgs: seq<Message>, sig: Signature)
    ensures CountRecent(Shim(msgs), sig) == CountRecent(msgs, sig)
  {
    if msgs != [] {
      var n := |msgs| - 1;
      var before := Shim(msgs[..n]);
      ShimKeepsCount(msgs[..n], sig);
      if n > 0 && Clash(msgs[n - 1], msgs[n]) {
        CountAppend(before + [BRIDGE], msgs[n], sig);
      } else {
        CountAppend(before, msgs[n], sig);
        assert before + [] == before;
      }
    }
  }
}
