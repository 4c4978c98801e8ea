/**
 Messages, call signatures, and the guard against repeating the same tool call.
 */
module RepeatGuard {
  import opened Text
  import opened Json
  import opened CanonicalArgs
  import opened ToolCallExtractor

  /** A tool call of a message: its position, and the call. A missing name or arguments is `Null`. */
  datatype ToolCall = ToolCall(index: int, name: Json, args: Json)

  /** A message of a conversation. No tool calls and an empty list of them are the same. */
  datatype Message = Message(role: string, content: Option<string>, calls: seq<ToolCall>)

  datatype Signature = Signature(name: Json, args: string)

  /** Python's truth value. */
  predicate Truthy(v: Json) {
    match v
    case Null => false
    case Bool(b) => b
    case Int(n) => n != 0
    case Str(s) => s != ""
    case Arr(items) => items != []
    case Obj(members) => members != []
  }

  /** `_call_signature` */
  function SignatureOf(name: Json, args: Json): Signature {
    Signature(if Truthy(name) then name else Str(""), Canonical(args))
  }

  /** An assistant turn whose only call has the given signature. */
  predicate Repeats(m: Message, sig: Signature) {
    m.role == "assistant" && |m.calls| == 1 && SignatureOf(m.calls[0].name, m.calls[0].args) == sig
  }

  /** How many of the latest turns, tool turns not counted, repeat the signature without interruption. */
  function CountRecent(msgs: seq<Message>, sig: Signature): nat {
    if msgs == [] then 0
    else
      var last, init := msgs[|msgs| - 1], msgs[..|msgs| - 1];
      if last.role == "tool" then CountRecent(init, sig)
      else if Repeats(last, sig) then 1 + CountRecent(init, sig)
      else 0
  }

  /** `_count_recent_identical_calls`: the walk backward through the messages. */
  method CountRecentIdenticalCalls(messages: seq<Message>, sig: Signature) returns (count: nat)
    ensures count == CountRecent(messages, sig)
  {
    count := 0;
    var i := |messages|;
    assert messages[..i] == messages;
    while i > 0
      invariant 0 <= i <= |messages|
      invariant count + CountRecent(messages[..i], sig) == CountRecent(messages, sig)
    {
      assert messages[..i][..i - 1] == messages[..i - 1];
      i := i - 1;
      var msg := messages[i];
      if msg.role == "tool" {
        continue;
      }
      if msg.role != "assistant" {
        break;
      }
      if |msg.calls| != 1 {
        break;
      }
      var tc := msg.calls[0];
      if SignatureOf(tc.name, tc.args) != sig {
        break;
      }
      count := count + 1;
    }
  }

  // ---- What the count is ----

  function WithoutTools(msgs: seq<Message>): seq<Message> {
    if msgs == [] then []
    else
      var last, init := msgs[|msgs| - 1], msgs[..|msgs| - 1];
      WithoutTools(init) + if last.role == "tool" then [] else [last]
  }

  /** The count is the length of the longest run of repeats at the end of the conversation without its tool turns. */
  lemma {:induction false} CountIsLongestRun(msgs: seq<Message>, sig: Signature)
    ensures var turns, c := WithoutTools(msgs), CountRecent(msgs, sig);
            && c <= |turns|
            && (forall i | |turns| - c <= i < |turns| :: Repeats(turns[i], sig))
            && (c < |turns| ==> !Repeats(turns[|turns| - 1 - c], sig))
  {
    hide Repeats;
    if msgs != [] {
      CountIsLongestRun(msgs[..|msgs| - 1], sig);
    }
  }

  // ---- The guard ----

  /** Python's `str` of a name, used in the guard's text. */
  function NameText(name: Json): string {
    match name
    case Str(s) => s
    case _ =>
      var ts := TokensOf(name);
      LayOut(PythonText, ts, seq(|ts|, i requires 0 <= i < |ts| => DumpsStyle(ts)[i].(quote := '\'')))
  }

  function GuardText(name: Json, n: nat): string {
    "[tool-call guard] The tool '" + NameText(name) + "' has been called with identical arguments " + NatText(n) + GUARD_REST
  }

  const GUARD_ROW := " times in a row. This is a " + "repetition loop \U{2014} the call "
  const GUARD_WHY := "is not making progress and has " + "been blocked to protect the " + "host. "
  const GUARD_HOW := "Inspect the prior tool output, " + "choose a different approach, or " + "call a different tool. "
  const GUARD_REST := GUARD_ROW + GUARD_WHY + GUARD_HOW + "Do not repeat the same command."

  /** `_apply_repeat_guard`: the text to deliver instead if the first call is one repetition too many. */
  function GuardVerdict(threshold: int, messages: seq<Message>, calls: seq<Call>): Option<string> {
    if threshold <= 0 || calls == [] then None
    else
      var prior := CountRecent(messages, SignatureOf(calls[0].name, calls[0].args));
      if prior < threshold then None else Some(GuardText(calls[0].name, prior + 1))
  }

  method ApplyRepeatGuard(threshold: int, messages: seq<Message>, calls: seq<Call>) returns (text: Option<string>)
    ensures text == GuardVerdict(threshold, messages, calls)
    ensures text.Some? <==>
              threshold > 0 && calls != [] && CountRecent(messages, SignatureOf(calls[0].name, calls[0].args)) >= threshold
  {
    if threshold <= 0 || calls == [] {
      return None;
    }
    var Call(name, args) := calls[0];
    var sig := SignatureOf(name, args);
    var prior := CountRecentIdenticalCalls(messages, sig);
    if prior < threshold {
      return None;
    }
    var currentTotal := prior + 1;
    return Some(GuardText(name, currentTotal));
  }

  lemma {:induction false} CountAppend(msgs: seq<Message>, m: Message, sig: Signature)
    ensures CountRecent(msgs + [m], sig)
         == if m.role == "tool" then CountRecent(msgs, sig)
            else if Repeats(m, sig) then 1 + CountRecent(msgs, sig)
            else 0
  {
    assert (msgs + [m])[..|msgs|] == msgs;
  }

  // ---- In plain words ----

  /** How one more turn changes the count: tool turns do not count, a single call of the signature does, all else ends it. */
  lemma {:induction false} CountByTurns(msgs: seq<Message>, m: Message, sig: Signature)
    ensures CountRecent([], sig) == 0
    ensures m.role == "tool" ==> CountRecent(msgs + [m], sig) == CountRecent(msgs, sig)
    ensures m.role == "assistant" && |m.calls| == 1 && SignatureOf(m.calls[0].name, m.calls[0].args) == sig ==>
              CountRecent(msgs + [m], sig) == CountRecent(msgs, sig) + 1
    ensures m.role != "tool"
            && !(m.role == "assistant" && |m.calls| == 1 && SignatureOf(m.calls[0].name, m.calls[0].args) == sig) ==>
              CountRecent(msgs + [m], sig) == 0
  {
    hide SignatureOf;
    CountAppend(msgs, m, sig);
  }

  /**
   Calls with JSON arguments have one signature iff their names are the same or both empty or missing, and their
   arguments differ in key order only.
   */
  lemma {:induction false} SameSignatureIff(name: Json, name': Json, args: string, args': string)
    requires name.Null? || name.Str?
    requires name'.Null? || name'.Str?
    requires Loads(args).Some? && Loads(args').Some?
    ensures SignatureOf(name, Str(args)) == SignatureOf(name', Str(args')) <==>
              && (name == name' || (name in {Null, Str("")} && name' in {Null, Str("")}))
              && SameUpToOrder(Loads(args).value, Loads(args').value)
  {
    hide Canonical, Loads, SameUpToOrder;
    CanonicalDecides(args, args');
  }
}
