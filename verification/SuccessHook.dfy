/**
 The hook for complete responses: embedded tool calls become proper ones, repeated ones are blocked.
 */
module SuccessHook {
  import opened Text
  import opened Json
  import opened ToolCallExtractor
  import opened RepeatGuard

  /** What a choice of a response carries. */
  datatype Reply = Reply(content: Option<string>, calls: seq<ToolCall>, finish: Option<string>)

  function Native(calls: seq<ToolCall>): seq<Call> {
    seq(|calls|, i requires 0 <= i < |calls| => Call(calls[i].name, calls[i].args))
  }

  /** Extracted calls as tool calls, numbered in order. */
  function Numbered(calls: seq<Call>): seq<ToolCall> {
    seq(|calls|, i requires 0 <= i < |calls| => ToolCall(i, calls[i].name, calls[i].args))
  }

  /** The calls that a reply makes: native ones if there are any, else those embedded in its content. */
  function CallsOf(r: Reply): seq<Call> {
    if r.calls != [] then Native(r.calls) else Extract(r.content).0
  }

  function NonEmpty(s: Option<string>): Option<string> {
    if s == Some("") then None else s
  }

  /** The reply that the client gets. */
  function Deliver(threshold: int, history: seq<Message>, r: Reply): Reply {
    match GuardVerdict(threshold, history, CallsOf(r))
    case Some(text) => Reply(Some(text), [], Some("stop"))
    case None =>
      if r.calls != [] || Extract(r.content).0 == [] then r
      else Reply(NonEmpty(Extract(r.content).1), Numbered(Extract(r.content).0), Some("tool_calls"))
  }

  class AssistantMessage {
    var content: Option<string>
    var toolCalls: seq<ToolCall>
  }

  class Choice {
    var message: AssistantMessage?
    var finishReason: Option<string>

    ghost function State(): Reply
      requires message != null
      reads this, message
    {
      Reply(message.content, message.toolCalls, finishReason)
    }
  }

  ghost predicate Separate(choices: seq<Choice>)
    reads choices
  {
    && (forall i, j | 0 <= i < j < |choices| :: choices[i] != choices[j])
    && forall i, j | 0 <= i < j < |choices| && choices[i].message != null :: choices[i].message != choices[j].message
  }

  /** One round of the loop over the choices. */
  method ProcessChoice(threshold: int, history: seq<Message>, choice: Choice)
    modifies choice, choice.message
    ensures choice.message == old(choice.message)
    ensures choice.message == null ==> choice.finishReason == old(choice.finishReason)
    ensures choice.message != null ==> choice.State() == Deliver(threshold, history, old(choice.State()))
  {
    hide Extract, CountRecent, SignatureOf, GuardText;
    var msg := choice.message;
    if msg == null {
      return;
    }
    if msg.toolCalls != [] {
      var blocked := ApplyRepeatGuard(threshold, history, Native(msg.toolCalls));
      if blocked.Some? {
        msg.toolCalls := [];
        msg.content := blocked;
        choice.finishReason := Some("stop");
      }
      return;
    }
    var calls, cleaned := ExtractToolCalls(msg.content);
    if calls == [] {
      return;
    }
    var blocked := ApplyRepeatGuard(threshold, history, calls);
    if blocked.Some? {
      msg.content := blocked;
      choice.finishReason := Some("stop");
      return;
    }
    msg.toolCalls := Numbered(calls);
    msg.content := NonEmpty(cleaned);
    choice.finishReason := Some("tool_calls");
  }

  /** `async_post_call_success_hook`: every choice with a message is replaced by what `Deliver` says. */
  method PostCallSuccessHook(threshold: int, history: seq<Message>, choices: seq<Choice>)
    requires Separate(choices)
    modifies choices, set c | c in choices && c.message != null :: c.message
    ensures forall c | c in choices :: c.message == old(c.message)
    ensures forall c | c in choices && c.message == null :: c.finishReason == old(c.finishReason)
    ensures forall c | c in choices && c.message != null :: c.State() == Deliver(threshold, history, old(c.State()))
  {
    hide Deliver;
    var i := 0;
    while i < |choices|
      invariant i <= |choices|
      invariant forall c | c in choices :: c.message == old(c.message)
      invariant forall c | c in choices && c.message == null :: c.finishReason == old(c.finishReason)
      invariant forall j | 0 <= j < i && choices[j].message != null ::
                  choices[j].State() == Deliver(threshold, history, old(choices[j].State()))
      invariant forall j | i <= j < |choices| && choices[j].message != null ::
                  choices[j].State() == old(choices[j].State())
    {
      ProcessChoice(threshold, history, choices[i]);
      i := i + 1;
    }
  }

  // ---- What delivery does to the conversation ----

  /** The delivered reply as the turn that the client appends. */
  function AsMessage(r: Reply): Message {
    Message("assistant", r.content, r.calls)
  }

  predicate Blocked(threshold: int, history: seq<Message>, r: Reply) {
    GuardVerdict(threshold, history, CallsOf(r)).Some?
  }

  /** A blocked reply carries no call; any other carries the calls of the model, unchanged and in order. */
  lemma {:induction false} DeliveredCalls(threshold: int, history: seq<Message>, r: Reply)
    ensures Native(Deliver(threshold, history, r).calls) == if Blocked(threshold, history, r) then [] else CallsOf(r)
  {
    if !Blocked(threshold, history, r) && r.calls == [] && CallsOf(r) != [] {
      assert Native(Numbered(CallsOf(r))) == CallsOf(r);
    }
  }

  /** What a blocked reply becomes: the guard's text about its first call and how often it has been made, no call, and `stop`. */
  lemma {:induction false} BlockedDelivered(threshold: int, history: seq<Message>, r: Reply)
    requires Blocked(threshold, history, r)
    ensures CallsOf(r) != []
    ensures var first := CallsOf(r)[0];
            var earlier := CountRecent(history, SignatureOf(first.name, first.args));
            && 1 <= threshold <= earlier
            && Deliver(threshold, history, r) == Reply(Some(GuardText(first.name, earlier + 1)), [], Some("stop"))
  {
    hide Extract, CountRecent, SignatureOf, GuardText;
  }
}
