# Verified model of the tool-call callback, the random shim and the series reconciler

This project models the programs of the repository that carry real logic, and proves what they are for.

- **The LiteLLM tool-call callback** (`fix_tool_messages.py`): the scanner for top-level `{...}` objects, the
  extraction of tool calls from model text in four wrappings, canonical call arguments, the guard against repeated
  calls, the ordering shim, and the hooks for complete and for streamed responses.
- **The random-number block of the Plex shim** (`isoc23_shim.c`): filling a buffer through short reads and signals,
  and unbiased bounded draws.
- **The Bookshelf series reconciler** (`series_reconciler.py`): one run as a function of the server's state, and all
  interleavings of runs with what others do to the server.
- **The benchmark's cutter for one Go function** (`benchmark.py`): a second brace matcher, compared with the scanner.

## How it is organised

| file | content |
|---|---|
| `Text`, `Occurrences`, `Division`, `SortedKeySets` | Python's string helpers, words that do not occur in a text, quotients and remainders, `sorted` on integer keys |
| `BraceScanner`, `SpanRoundTrip`, `GoCutter` | the scanner, printing and rescanning nested objects, the second matcher |
| `Json`, `JsonRoundTrip`, `CanonicalArgs` | JSON and Python literals as text, printing and parsing, canonical arguments |
| `JsonGrammar`, `JsonTexts`, `JsonPrinting`, `PythonLiterals` | the texts that are read, as a grammar, and the one text that is printed |
| `ToolCallExtractor`, `PatternMatches` | extraction, and what its three regular expressions match |
| `Wrapping`, `WrappingInvariance`, `MixedAnswers`, `BraceFreeText` | what is found in tags, fences and prose, in any mixture, and what is not |
| `RepeatGuard`, `OrderingShim`, `GuardRuns` | the guard, the shim, and whole conversations behind the proxy |
| `SuccessHook`, `DeliveredContent`, `StreamingHook`, `StreamLaws` | the two response hooks, the content that is kept, and what a client reads from a stream |
| `HookAgreement`, `HookIdempotence`, `HookWitnesses` | the hooks against each other and on their own output, with concrete cases |
| `UniformDraw`, `EntropyFill` | the arithmetic of bounded draws, the fill loops |
| `SeriesNames`, `Reconciler`, `ReconcilerRuns` | slugs and series names, one run, all runs |

Loops and methods that update state are Dafny methods with invariants, proved equal to a specification function; the
laws are lemmas about those functions. A text is a `string`, a tool call a pair of a name and arguments, a
conversation a sequence of messages. Call names are JSON values, since the source never checks that a name is a
string. The repeat threshold is a parameter. A reply, a chunk and a message are datatypes; response choices, the
request and the server are classes with the fields that the source assigns.

`hide` statements at the head of some proofs keep definitions out of the solver's way that the proof does not need.

## Where the code and its documentation differ

The model follows the code.

- The docstring of the scanner promises every top-level balanced object. Behind a stray `}`, an unclosed `{` or an
  odd quote, such as the apostrophe in a sentence, it misses objects: `BraceScanner.ReportedIffClosed` says exactly
  when an object is found, whatever stands in front of it.
- The module docstring speaks of an empty assistant turn; the inserted turn has the content `...`.
- The guard is documented to fire on the (N+1)-th identical call in a row. It fires there and then again at every
  multiple of N+1, since a blocked reply ends the run that it counts: `GuardRuns.FiresExactlyAtMultiples`. For a
  client that joins the deltas of all choices it can also fail to fire: the hook copies a call into every delta of the
  first chunk, and if the copied arguments have another signature, the history never shows the call that the guard
  looks for. `GuardRuns.RepeatedBoundedIff` says exactly for which streams that is so, `HookWitnesses.CopiedArgumentsEscape`
  and `HookWitnesses.EmptyArgumentsGuarded` are one stream of either kind. A client that follows one choice reads every
  call once: `StreamLaws.OneChoiceRead`.
- Canonical arguments are documented to ignore white space. They do for JSON text; text padded with white space that
  JSON does not know is only stripped: `CanonicalArgs.PaddingIgnoredIff`, `CanonicalArgs.PaddedJsonNotIdempotent`.
- The raw text of calls is documented to be stripped from the content. For fences and bare objects the hook for
  complete responses drops all content (`WrappingInvariance.FencedCallsExact`, `WrappingInvariance.BareObjects`), and the
  streaming hook drops it for every wrapping.
- The streaming hook prefers calls embedded in content over native ones, the hook for complete responses the other way
  round: `HookAgreement.BothKindsAgreeIff` says when they agree all the same, `HookWitnesses.HooksDiffer` is a stream on
  which they do not.
- The reconciler is documented to leave alone what was ever grabbed or imported. It looks at the first 50 records only:
  `ReconcilerRuns.GrabbedAgainIff` says exactly when a grabbed book is searched again, `ReconcilerRuns.SearchedTwice` is
  a course of events in which it is.

## Model

| member | source | states |
|---|---|---|
| BraceScanner.BalancedObjectSpans | servers/ai-runner/litellm/fix_tool_messages.py:82-112 | the loop reports exactly the top-level objects of the text, disjoint and in order |
| BraceScanner.SpansExact | servers/ai-runner/litellm/fix_tool_messages.py:85-112 | for every text a span is reported iff it runs from an unquoted `{` at depth zero to the first return to depth zero; spans are disjoint and increasing |
| BraceScanner.StartTracksDepth | servers/ai-runner/litellm/fix_tool_messages.py:104-112 | `start >= 0` iff `depth >= 1` throughout, and `start` is where that object opened; so the test `start >= 0` never decides anything |
| BraceScanner.SpanLocality | servers/ai-runner/litellm/fix_tool_messages.py:150-161 | rescanning the text of a reported span, from any text, reports exactly one span that covers all of it |
| BraceScanner.ReportedIffClosed | servers/ai-runner/litellm/fix_tool_messages.py:90-112 | an object behind any text is reported iff that text ends outside strings and leaves the depth at zero |
| BraceScanner.StrayBraceHidesObject | servers/ai-runner/litellm/fix_tool_messages.py:108-112 | `}{}` yields no span, while `{}` yields one |
| BraceScanner.OddQuoteHidesRest | servers/ai-runner/litellm/fix_tool_messages.py:94-103 | behind a quote outside strings that is never closed nothing more is reported |
| BraceScanner.ApostropheHidesObject | servers/ai-runner/litellm/fix_tool_messages.py:100-103 | `'{}` yields no span: the object is taken for the inside of a string |
| BraceScanner.SpansOfConcat | servers/ai-runner/litellm/fix_tool_messages.py:85-112 | behind a text that ends at depth zero outside strings the scan starts afresh: its spans are shifted and appended |
| BraceScanner.PlainCharSkipped | servers/ai-runner/litellm/fix_tool_messages.py:90-112 | behind such a text any character but the two quotes and the two braces changes nothing, a backtick for instance |
| BraceScanner.LiteralSkipped | servers/ai-runner/litellm/fix_tool_messages.py:94-103 | so does a string in either quote, whatever stands in it but that quote and backslashes |
| BraceScanner.EscapeSkipped | servers/ai-runner/litellm/fix_tool_messages.py:91-99 | inside a string a backslash takes the next character with it, a quote or a backslash included |
| BraceScanner.BracesFound | servers/ai-runner/litellm/fix_tool_messages.py:104-112 | a pair of braces around text without braces and quotes is reported |
| SpanRoundTrip.ScanOfPrint | servers/ai-runner/litellm/fix_tool_messages.py:82-112 | printing any objects of any nesting, with strings in either quote style holding any braces, quotes and backslashes, and scanning the text, gives back the printed boundaries |
| GoCutter.CutAtMatchingBrace | servers/ai-runner/poc/benchmark.py:1481-1493 | the loop cuts behind the first return of the count to zero, and returns the whole text iff there is none |
| GoCutter.QuoteFreeIsUnquoted | servers/ai-runner/poc/benchmark.py:1485-1492 | in text without quotes every brace counts for both matchers |
| GoCutter.CutterAgrees | servers/ai-runner/poc/benchmark.py:1481-1493 | if no brace is quoted and the first brace opens, the cut is the end of the scanner's first span, and there is a cut iff there is a span |
| GoCutter.StrayBraceDisagrees | servers/ai-runner/poc/benchmark.py:1481-1493 | if a closing brace comes first and the cutter cuts, no span of the scanner ends there |
| GoCutter.AgreeIff | servers/ai-runner/poc/benchmark.py:1481-1493 | if no brace is quoted the matchers agree iff there is no opening brace, or no closing brace in front of the first one, or with d of them in front the count that starts at the first `{` comes back neither to zero nor, from an opening brace, to d |
| GoCutter.QuotedBracesIff | servers/ai-runner/poc/benchmark.py:1486-1492 | with any strings in it, the cut is the end of an object from the first `{` iff the braces inside its strings cancel out and never make up for the depth on the way |
| GoCutter.QuotedBraceDisagrees | servers/ai-runner/poc/benchmark.py:1485-1492 | `{'}'}` is cut inside the object that the scanner finds |
| JsonRoundTrip.ParseOfLayout | servers/ai-runner/litellm/fix_tool_messages.py:52-65 | any printing of a value, in JSON or as a Python literal, with any white space and any quotes, parses to that value |
| JsonRoundTrip.PythonReadAsJson | servers/ai-runner/litellm/fix_tool_messages.py:58-62 | trying JSON first never misreads a Python literal: JSON fails on it or gives the same value |
| JsonRoundTrip.LoadsOfDumps | servers/ai-runner/litellm/fix_tool_messages.py:190-190 | `json.loads(json.dumps(v))` is `v` |
| JsonRoundTrip.ParseWellFormed | servers/ai-runner/litellm/fix_tool_messages.py:58-62 | whatever text is parsed, every dict of the result has distinct keys |
| JsonGrammar.ParseIff | servers/ai-runner/litellm/fix_tool_messages.py:58-62 | in either dialect a text is read as a value iff its tokens are those of a tree of the grammar that means this value; only Python allows a comma behind the last part |
| JsonGrammar.DictOfExact | servers/ai-runner/litellm/fix_tool_messages.py:58-62 | a dict holds, for each key that is written, the last value written for it, and nothing else |
| JsonTexts.LoadsIff | servers/ai-runner/litellm/fix_tool_messages.py:58-62 | character by character: `json.loads` reads a text as a value iff the text spells it by the grammar of JSON, with any white space, escapes, surrogate pairs and integers |
| PythonLiterals.PythonStringRead | servers/ai-runner/litellm/fix_tool_messages.py:58-62 | a Python string in either quotes with any of the modelled escapes is read as the characters that they stand for |
| JsonPrinting.DumpsPrints | servers/ai-runner/litellm/fix_tool_messages.py:74-76 | `json.dumps` writes a value in one way: commas and colons with one blank behind them and no other white space |
| JsonPrinting.EscapeExact | servers/ai-runner/litellm/fix_tool_messages.py:74-76 | in strings seven characters get a short escape, other printable ASCII stays, everything else is written as one or two code units in small hexadecimal digits |
| CanonicalArgs.CanonicalDecides | servers/ai-runner/litellm/fix_tool_messages.py:183-196 | two JSON texts have equal canonical forms iff their values differ only in the order of keys, at any depth |
| CanonicalArgs.CanonicalOfText | servers/ai-runner/litellm/fix_tool_messages.py:183-196 | a value and any JSON text of it have the same canonical form |
| CanonicalArgs.CanonicalIdempotent | servers/ai-runner/litellm/fix_tool_messages.py:188-190 | the canonical form of JSON text is its own canonical form |
| CanonicalArgs.NonJsonIdempotentIff | servers/ai-runner/litellm/fix_tool_messages.py:188-192 | for other text this holds iff the stripped text is not JSON or is canonical JSON already |
| CanonicalArgs.PaddingIgnoredIff | servers/ai-runner/litellm/fix_tool_messages.py:183-192 | white space around a JSON text leaves its canonical form alone iff it is JSON white space, or the text between is canonical already |
| CanonicalArgs.PaddedLoads | servers/ai-runner/litellm/fix_tool_messages.py:188-192 | JSON white space around any JSON text keeps its value, any other white space makes it no JSON |
| CanonicalArgs.NonJsonApart | servers/ai-runner/litellm/fix_tool_messages.py:188-192 | text that is not JSON, even when stripped, never gets the canonical form of a JSON value |
| CanonicalArgs.PaddedJsonNotIdempotent | servers/ai-runner/litellm/fix_tool_messages.py:188-192 | a concrete text whose canonical form is not canonical: `[ ]` behind a no-break space |
| ToolCallExtractor.MatchWithin | servers/ai-runner/litellm/fix_tool_messages.py:47-49 | a match of any of the three patterns lies within the text and has a non-empty group |
| PatternMatches.TagMatchExact | servers/ai-runner/litellm/fix_tool_messages.py:47-48 | a tag matches where it opens iff it is closed behind at least one more character; its group is what the greedy white space and the lazy group leave, in both directions |
| PatternMatches.FenceMatchExact | servers/ai-runner/litellm/fix_tool_messages.py:49-49 | the same for a fence, behind its language word if it is closed there, else with the word in the group |
| PatternMatches.FirstMatchExact | servers/ai-runner/litellm/fix_tool_messages.py:122-148 | a search finds the match that starts first, and none iff no place matches |
| ToolCallExtractor.CandidatesInOrder | servers/ai-runner/litellm/fix_tool_messages.py:122-126 | matches come in order and do not overlap, so sorting them by their start changes nothing |
| ToolCallExtractor.ParseEach | servers/ai-runner/litellm/fix_tool_messages.py:125-130 | the loop over tagged candidates keeps the valid calls, in order |
| ToolCallExtractor.ParseObjects | servers/ai-runner/litellm/fix_tool_messages.py:159-164 | the loop over the spans keeps the valid calls of the top-level objects, in order |
| ToolCallExtractor.ParseFences | servers/ai-runner/litellm/fix_tool_messages.py:148-154 | the nested loops keep the valid calls of all fences, in order |
| ToolCallExtractor.ExtractToolCalls | servers/ai-runner/litellm/fix_tool_messages.py:115-168 | calls and cleaned content of the first of the four wrappings that holds a valid call; what is valid, and what the tiers find, is stated by `Wrapping.CallIff` and `MixedAnswers.MixedAnswer` |
| Wrapping.PayloadScanned | servers/ai-runner/litellm/fix_tool_messages.py:82-112 | a dict printed as JSON or as a Python literal in any layout is one top-level object, and stripping leaves it alone |
| Wrapping.PayloadCall | servers/ai-runner/litellm/fix_tool_messages.py:52-79 | a dict printed in any layout is taken as the call it stands for if it has a name and arguments, else as no call |
| Wrapping.CallIff | servers/ai-runner/litellm/fix_tool_messages.py:68-79 | such a dict is a call iff it has a member with the key `name` and one with the key `arguments`; the call carries the value of the first, and the second as it is if it is a string, else as JSON text of it |
| BraceFreeText.OnlyDictsAreCalls | servers/ai-runner/litellm/fix_tool_messages.py:58-72 | a text that is no dict, because it does not start with a brace, is no call: lists, numbers, words |
| WrappingInvariance.ToolCallTags | servers/ai-runner/litellm/fix_tool_messages.py:122-133 | the dicts in `<tool_call>` tags that are calls are extracted exactly, in order, if there is one, no prose opens such a tag and no payload closes it |
| WrappingInvariance.ToolsTags | servers/ai-runner/litellm/fix_tool_messages.py:135-146 | the dicts in `<tools>` tags that are calls are extracted exactly, in order, if there is one, no prose opens such a tag, no payload closes it, and nothing opens a `<tool_call>` tag |
| WrappingInvariance.FencedCallsExact | servers/ai-runner/litellm/fix_tool_messages.py:148-157 | the dicts in any number of code fences that are calls, whatever languages they name and with text free of quotes and braces between the dicts, are extracted exactly, in order, if there is one and no prose or payload opens a tag or holds a fence; no prose is left |
| WrappingInvariance.BareObjects | servers/ai-runner/litellm/fix_tool_messages.py:159-166 | the bare dicts in prose free of quotes and braces that are calls are extracted exactly, in order, if there is one and nothing opens a tag or a fence; no prose is left |
| WrappingInvariance.SameCallsHoweverWrapped | servers/ai-runner/litellm/fix_tool_messages.py:115-168 | the same dicts, calls and others, give the same list of names and argument texts in both kinds of tag, spread over any fences, and bare |
| WrappingInvariance.CleanedIsProse | servers/ai-runner/litellm/fix_tool_messages.py:131-145 | the content left of tagged calls is the prose around the tags, stripped |
| WrappingInvariance.CallInTags | servers/ai-runner/litellm/fix_tool_messages.py:47-48 | one call between the literal tags of either kind, with any white space in them and any prose without `<` and backticks around them |
| WrappingInvariance.CallInFence | servers/ai-runner/litellm/fix_tool_messages.py:49-49 | one call in a literal fence without language, with `json`, or with `python` |
| WrappingInvariance.CallInProse | servers/ai-runner/litellm/fix_tool_messages.py:159-166 | one call as it is |
| MixedAnswers.MixedAnswer | servers/ai-runner/litellm/fix_tool_messages.py:115-168 | answers that mix all four wrappings around calls and other dicts: the first wrapping that holds a call decides and yields its own calls in order; a tag leaves the rest of the answer, tags of the other kind included, a fence or a bare object leaves nothing; without any call the content stays as it is |
| MixedAnswers.TiersInOrder | servers/ai-runner/litellm/fix_tool_messages.py:115-117 | for every text: the test for blank content never changes the result |
| BraceFreeText.NoBraceNoCalls | servers/ai-runner/litellm/fix_tool_messages.py:115-168 | text without `{` yields no call in any wrapping, whatever tags and fences it has |
| BraceFreeText.ExtractedArgs | servers/ai-runner/litellm/fix_tool_messages.py:68-79 | the arguments of every extracted call are text |
| RepeatGuard.CountRecentIdenticalCalls | servers/ai-runner/litellm/fix_tool_messages.py:211-239 | the backward walk counts the latest turns with this single call, tool turns not counted |
| RepeatGuard.CountIsLongestRun | servers/ai-runner/litellm/fix_tool_messages.py:211-239 | that count is the longest run of such turns at the end of the conversation without its tool turns |
| RepeatGuard.CountByTurns | servers/ai-runner/litellm/fix_tool_messages.py:211-239 | tool turns leave the count alone, an assistant turn whose single call has the signature adds one, any other turn ends it |
| RepeatGuard.SameSignatureIff | servers/ai-runner/litellm/fix_tool_messages.py:183-200 | calls with JSON arguments have one signature iff their names are equal, or both empty or missing, and their arguments differ in key order only |
| RepeatGuard.ApplyRepeatGuard | servers/ai-runner/litellm/fix_tool_messages.py:251-273 | blocks iff the guard is on, there is a call, and the first call has been repeated at least threshold times; the text names the call and the count |
| OrderingShim.RequestData.PreCallHook | servers/ai-runner/litellm/fix_tool_messages.py:280-294 | the request's messages become the repaired ones |
| OrderingShim.ShimRepairs | servers/ai-runner/litellm/fix_tool_messages.py:284-293 | no tool turn is left directly before a user turn; the length grows by the number of such places |
| OrderingShim.NoUserBehindTool | servers/ai-runner/litellm/fix_tool_messages.py:284-293 | in plain roles: no user turn is left behind a tool turn, and the messages change iff there was one |
| OrderingShim.BridgesOut | servers/ai-runner/litellm/fix_tool_messages.py:284-293 | taking the inserted messages out again restores the input exactly |
| OrderingShim.MarkedIsShim | servers/ai-runner/litellm/fix_tool_messages.py:284-293 | the marked messages that the statement before is about are the shim's output |
| OrderingShim.BridgesOnly | servers/ai-runner/litellm/fix_tool_messages.py:292-292 | nothing but the assistant turn `...` is inserted |
| OrderingShim.ShimMinimal | servers/ai-runner/litellm/fix_tool_messages.py:284-293 | no repair by inserting messages is shorter |
| OrderingShim.ClashFreeUnchanged | servers/ai-runner/litellm/fix_tool_messages.py:284-293 | messages that need no repair are left alone |
| OrderingShim.ShimIdempotent | servers/ai-runner/litellm/fix_tool_messages.py:280-294 | applying the shim twice equals applying it once |
| OrderingShim.ShimKeepsCount | servers/ai-runner/litellm/fix_tool_messages.py:211-294 | for every history and signature the repeat count on the repaired history equals the count on the original |
| SuccessHook.ProcessChoice | servers/ai-runner/litellm/fix_tool_messages.py:302-358 | a choice with a message carries afterwards what `Deliver` makes of it, whose calls, content and finish reason the rows below state; a choice without a message is left alone |
| SuccessHook.PostCallSuccessHook | servers/ai-runner/litellm/fix_tool_messages.py:296-359 | every choice with a message carries the delivered reply, every other choice is unchanged |
| SuccessHook.DeliveredCalls | servers/ai-runner/litellm/fix_tool_messages.py:327-358 | a blocked reply carries no call, any other carries the model's calls, unchanged and in order |
| SuccessHook.BlockedDelivered | servers/ai-runner/litellm/fix_tool_messages.py:307-345 | a blocked reply has the guard text about its first call and the number of times it was made, no call, and `stop` |
| DeliveredContent.ProseDelivered | servers/ai-runner/litellm/fix_tool_messages.py:346-358 | unblocked calls in tags of either kind are delivered, numbered from zero, beside the stripped prose around the tags, or beside no content at all if that is empty |
| DeliveredContent.FencesDelivered | servers/ai-runner/litellm/fix_tool_messages.py:346-358 | beside calls in fences no content is delivered |
| DeliveredContent.BareDelivered | servers/ai-runner/litellm/fix_tool_messages.py:346-358 | nor beside bare calls |
| DeliveredContent.OthersUntouched | servers/ai-runner/litellm/fix_tool_messages.py:307-345 | a reply without calls, or with native calls that are not blocked, is not changed |
| DeliveredContent.MixedDelivered | servers/ai-runner/litellm/fix_tool_messages.py:302-358 | what is delivered for answers that mix all four wrappings around calls and other dicts |
| GuardRuns.CountAfterModel | servers/ai-runner/litellm/fix_tool_messages.py:211-273 | what a reply, complete or streamed, does to every count, if copying keeps its signature: plus one if its single call was below the threshold, else zero; and exactly when it is blocked |
| GuardRuns.CountAfterReply | servers/ai-runner/litellm/fix_tool_messages.py:211-480 | the same for replies whose calls are copied any number of times: the count grows iff the single call that is delivered has the signature |
| GuardRuns.ReplyBoundedIff | servers/ai-runner/litellm/fix_tool_messages.py:211-480 | a reply keeps all counts within the threshold iff it is not this: a stream whose content makes a single call that has been repeated less often than the threshold, whose first chunk has two or more deltas, and whose call with the arguments that many times over has reached the threshold; read by a client that joins the deltas of all choices |
| GuardRuns.RepeatedBoundedIff | servers/ai-runner/litellm/fix_tool_messages.py:211-480 | a stream is kept within the threshold however often it is repeated iff the single call in its content, if any, has the same signature with its arguments as many times over as the first chunk has deltas; same client |
| GuardRuns.StepBounded | servers/ai-runner/litellm/fix_tool_messages.py:251-480 | every turn of the client, every complete reply, and every stream whose single embedded call keeps its signature when copied keeps all counts within the threshold; same client |
| GuardRuns.GuardedRunsBounded | servers/ai-runner/litellm/fix_tool_messages.py:211-480 | over every conversation of such turns, no prefix of the history ever has more than threshold consecutive turns with one single call |
| GuardRuns.FiringRate | servers/ai-runner/litellm/fix_tool_messages.py:251-480 | of k repetitions, complete or streamed with copies that keep the signature, behind c earlier ones exactly floor((c + k) / (N + 1)) are blocked |
| GuardRuns.FiresExactlyAtMultiples | servers/ai-runner/litellm/fix_tool_messages.py:251-480 | repetition number m of that kind is blocked iff m is a multiple of N + 1 |
| HookWitnesses.CopiedArgumentsEscape | servers/ai-runner/litellm/fix_tool_messages.py:429-454 | where the bound fails for a client that joins the deltas of all choices: a concrete stream with two deltas in its first chunk repeats one single call any number of times, whatever the threshold |
| HookWitnesses.EmptyArgumentsGuarded | servers/ai-runner/litellm/fix_tool_messages.py:429-454 | two deltas alone do no harm: with empty arguments the same stream is blocked at repetition N + 1 |
| StreamingHook.AddCallDeltas | servers/ai-runner/litellm/fix_tool_messages.py:379-403 | the inner loop folds the call deltas of one choice into the entries |
| StreamingHook.AddChoices | servers/ai-runner/litellm/fix_tool_messages.py:372-403 | the middle loop appends content and folds call deltas of one chunk |
| StreamingHook.Reassemble | servers/ai-runner/litellm/fix_tool_messages.py:368-407 | the loops compute the whole content and, per index, the collected name and arguments |
| StreamingHook.SynthesizeStream | servers/ai-runner/litellm/fix_tool_messages.py:435-463 | a role chunk, one chunk for each call, and a final chunk with `tool_calls` |
| StreamingHook.EmitCases | servers/ai-runner/litellm/fix_tool_messages.py:428-480 | blocks, synthesises or passes through as decided from the calls |
| StreamingHook.StreamingIteratorHook | servers/ai-runner/litellm/fix_tool_messages.py:361-480 | the chunks that are yielded, in order |
| StreamingHook.StreamAnnounced | servers/ai-runner/litellm/fix_tool_messages.py:435-463 | the first chunk of a synthesised stream names the role `assistant` and no other does; the last has the finish reason `tool_calls` and no other has one |
| StreamingHook.StopAnnounced | servers/ai-runner/litellm/fix_tool_messages.py:415-426 | a blocked stream is one chunk with role `assistant` and finish reason `stop` |
| SortedKeySets.SortedKeys | servers/ai-runner/litellm/fix_tool_messages.py:468-471 | the keys, each once, strictly increasing |
| StreamLaws.EntriesExact | servers/ai-runner/litellm/fix_tool_messages.py:379-403 | an index has an entry iff a delta mentions it: its last non-empty name and all its argument text in order |
| StreamLaws.ReadByParts | servers/ai-runner/litellm/fix_tool_messages.py:368-403 | content and call deltas of a stream are those of every choice of every chunk, one behind the other; a choice without delta adds none |
| StreamLaws.ChunkingInvariance | servers/ai-runner/litellm/fix_tool_messages.py:368-480 | streams with the same content and, per index, the same last name and argument text lead to the same decision |
| StreamLaws.InterleavingInvariance | servers/ai-runner/litellm/fix_tool_messages.py:379-403 | deltas of different indices may change places |
| StreamLaws.SplitInvariance | servers/ai-runner/litellm/fix_tool_messages.py:397-403 | argument text may be cut in two anywhere |
| StreamLaws.StopStreamRead | servers/ai-runner/litellm/fix_tool_messages.py:415-426 | what a client reads from a blocked stream: no call, the guard's text once for every delta of the first chunk, and `stop` iff that chunk has a choice |
| StreamLaws.SynthesizedRead | servers/ai-runner/litellm/fix_tool_messages.py:429-464 | what a client that joins all choices reads from a synthesised stream: the calls in order, numbered from zero, no content, `tool_calls` iff the last chunk has a choice; with m deltas in the first chunk no call if m is zero, else all arguments m times over |
| StreamLaws.OneChoiceRead | servers/ai-runner/litellm/fix_tool_messages.py:435-464 | a client that follows one choice reads every call of a synthesised stream once, however many choices there are |
| StreamLaws.KeptSignature | servers/ai-runner/litellm/fix_tool_messages.py:199-200 | a name that is empty and one that is missing give the same signature, so what is read back is judged as what was found |
| HookAgreement.StreamingAgrees | servers/ai-runner/litellm/fix_tool_messages.py:296-480 | for every stream, the output read with the hook's own fold, which merges all choices into one message, against the hook for complete responses on that one merged message (with several choices that hook would treat each choice on its own): same verdict always; same calls iff nothing was synthesised or the calls survive being copied; same finish reason iff the chunk that carries it has a choice; same reply if passed through, and if blocked iff there is one delta. Where the content makes calls the message is taken without its native ones |
| HookAgreement.AgreesWithSuccessHook | servers/ai-runner/litellm/fix_tool_messages.py:296-480 | the same against the merged message itself, for every stream that has not both native calls and calls in its content |
| HookAgreement.RegularAgrees | servers/ai-runner/litellm/fix_tool_messages.py:296-480 | for such a stream with one delta in its first chunk and a choice in its last, finish reasons agree, and calls iff the reply is blocked or no name is empty and not null |
| HookAgreement.ReadBackSame | servers/ai-runner/litellm/fix_tool_messages.py:397-403 | calls come back unchanged from m copies of their deltas iff there are none, or m is positive, no name is empty and not null, and m is one or all arguments are empty |
| HookAgreement.BothKindsAgreeIff | servers/ai-runner/litellm/fix_tool_messages.py:308-429 | with both kinds, on the merged message, calls and finish reason agree iff both hooks block and the first chunk has a choice, or neither blocks, the calls of the content as read back are the native ones, and the finish reasons are the same |
| HookWitnesses.HooksDiffer | servers/ai-runner/litellm/fix_tool_messages.py:308-429 | a concrete stream with both kinds: whatever the threshold, one hook delivers the call of the content and the other the native one |
| HookIdempotence.StreamingIdempotentIff | servers/ai-runner/litellm/fix_tool_messages.py:361-480 | for every stream, exactly when a second run with the same history changes nothing: passed through, always; synthesised, iff the calls as read back are not blocked; blocked, iff no call is found in the guard's text or the same text comes out again |
| HookIdempotence.StreamingIdempotent | servers/ai-runner/litellm/fix_tool_messages.py:361-480 | so with at most one delta in the first chunk it changes nothing unless a call is blocked whose name holds a `{` |
| HookWitnesses.GuardTextQuotesCall | servers/ai-runner/litellm/fix_tool_messages.py:242-267 | the guard's text quotes the name verbatim: a call written in the name is extracted from the text |
| HookWitnesses.TaggedNameNotIdempotent | servers/ai-runner/litellm/fix_tool_messages.py:361-464 | for every call written into a name there are a history and a stream that is blocked, and whose blocked form a second run turns into that call |
| HookWitnesses.TaggedNameDeliveredAgain | servers/ai-runner/litellm/fix_tool_messages.py:307-358 | the same for complete responses |
| HookWitnesses.NotIdempotentWitness | servers/ai-runner/litellm/fix_tool_messages.py:361-464 | one concrete name, history and stream of that kind |
| HookIdempotence.DeliverIdempotentIff | servers/ai-runner/litellm/fix_tool_messages.py:302-358 | the hook for complete responses leaves its own output alone iff the reply is not blocked, or no call is found in the guard's text, or the same text comes out again |
| HookIdempotence.DeliverIdempotent | servers/ai-runner/litellm/fix_tool_messages.py:302-358 | so it does unless a call is blocked whose name holds a `{` |
| UniformDraw.RejectBelowExact | docker/plex/isoc23_shim.c:199-199 | `min` equals 2^32 mod upper although 2^32 has no 32-bit representation |
| UniformDraw.FewRejected | docker/plex/isoc23_shim.c:199-201 | fewer than half of all draws are rejected |
| UniformDraw.ExactlyUniform | docker/plex/isoc23_shim.c:197-203 | every result below upper comes from exactly (2^32 - min) / upper accepted draws |
| EntropyFill.GetEntropy | docker/plex/isoc23_shim.c:166-183 | success iff at most 256 bytes are asked for, the device opens and all bytes are read; always a prefix of the buffer comes from the device and nothing else is touched; requests of at most 256 bytes; the device is closed again |
| EntropyFill.Arc4RandomBuf | docker/plex/isoc23_shim.c:184-191 | the bytes filled come from the device in order and nothing else is touched; the whole buffer takes ceil(len / 256) calls; after a hard error a prefix of whole chunks is complete, and at most one more chunk is begun |
| EntropyFill.BenignFilled | docker/plex/isoc23_shim.c:166-191 | under any short reads and finitely many signals the whole buffer is filled |
| EntropyFill.RequestLimit | docker/plex/isoc23_shim.c:166-183 | 256 bytes are served by any device without hard errors, 257 are refused by every device |
| EntropyFill.Arc4Random | docker/plex/isoc23_shim.c:192-196 | as many bytes as were got come from the device, least significant first; after a hard error the others are what the uninitialised word held; `EntropyFill.DrawHoldsBytes` says so byte by byte |
| EntropyFill.WordHoldsBytes | docker/plex/isoc23_shim.c:192-196 | a word holds its four bytes, least significant first, as its digits to base 256 |
| EntropyFill.EveryWordOnce | docker/plex/isoc23_shim.c:192-196 | every 32-bit word comes from exactly one quadruple of bytes |
| EntropyFill.DrawHoldsBytes | docker/plex/isoc23_shim.c:192-196 | byte i of draw j is the device byte that was read for it, or what the memory held if the device failed before |
| EntropyFill.DrawAtLeast | docker/plex/isoc23_shim.c:200-201 | on any device the redraw loop ends with the first draw that is at least `min`, provided that there is one |
| EntropyFill.Arc4RandomUniform | docker/plex/isoc23_shim.c:197-203 | on any device the first accepted draw, reduced; zero without any draw if upper is below two |
| EntropyFill.BenignDraw | docker/plex/isoc23_shim.c:166-203 | without hard errors the draws are the device's bytes, four by four, and no stale byte is used |
| EntropyFill.BenignBytes | docker/plex/isoc23_shim.c:192-196 | byte i of draw j is byte 4j + i of the device |
| SeriesNames.SlugExact | k8s/plex/bookshelf/files/series_reconciler.py:44-45 | a slug is lower-case letters and digits with single dashes between them, and such a text is its own slug |
| SeriesNames.SlugOfTitle | k8s/plex/bookshelf/files/series_reconciler.py:44-45 | the slug of a title is its words with single dashes between them, capitals replaced by the small letter at the same place of the alphabet, whatever other characters stand between and around the words |
| SeriesNames.CollapseRedundant | k8s/plex/bookshelf/files/series_reconciler.py:45-45 | whatever the title, the second substitution has nothing to do behind the first |
| SeriesNames.VolumeOfSeries | k8s/plex/bookshelf/files/series_reconciler.py:48-51 | every volume title of a series, whatever white space and number follow the name, yields the series' name |
| SeriesNames.SeriesNameExact | k8s/plex/bookshelf/files/series_reconciler.py:48-51 | for every title: a `#` with digits, dots and dashes up to the end is cut off with what follows it, any other title is only stripped |
| Reconciler.Server.Run | k8s/plex/bookshelf/files/series_reconciler.py:63-102 | the books searched and the whole new state of the server, dry or not |
| Reconciler.Server.NewBooks | k8s/plex/bookshelf/files/series_reconciler.py:82-94 | the inner loop finds the new volumes of one author, in order |
| ReconcilerRuns.SearchedIff | k8s/plex/bookshelf/files/series_reconciler.py:54-94 | a book is searched iff it is unmonitored, has no file, its author has a tag that is the slug of its series, and its first fifty records show none of `grabbed`, `bookFileImported` and `downloadImported` |
| ReconcilerRuns.ChangedByRun | k8s/plex/bookshelf/files/series_reconciler.py:63-100 | unmonitored authors with a known tag become monitored with `monitorNewItems` set to `none`, searched books become monitored, and nothing else changes; a dry run changes nothing |
| ReconcilerRuns.SecondRunDoesNothing | k8s/plex/bookshelf/files/series_reconciler.py:63-102 | with no change in between, a second run searches nothing and writes nothing |
| ReconcilerRuns.SearchedAtMostOnce | k8s/plex/bookshelf/files/series_reconciler.py:54-102 | over all interleavings of runs with new authors and volumes, renamings, tags, grabs and imports, every book is searched at most once, provided that books are unmonitored only while their first page of history shows a grab or an import, and that later records do not push the last one off that page while the book is unmonitored |
| ReconcilerRuns.SearchedOnceIff | k8s/plex/bookshelf/files/series_reconciler.py:54-102 | without any such proviso: no book is searched twice iff no run meets a searched book that is wanted, unmonitored, without file, and whose first page shows neither grab nor import |
| ReconcilerRuns.NextRunRepeatsIff | k8s/plex/bookshelf/files/series_reconciler.py:82-100 | the next run repeats no search iff no book searched before looks new again |
| ReconcilerRuns.FullPageHidesGrab | k8s/plex/bookshelf/files/series_reconciler.py:54-60 | fifty later records of other kinds hide every grab and import before them |
| ReconcilerRuns.GrabbedAgainIff | k8s/plex/bookshelf/files/series_reconciler.py:54-94 | a book whose last grab or import has n other records behind it is searched iff n is at least fifty and it is wanted, unmonitored and without file |
| ReconcilerRuns.SearchedTwice | k8s/plex/bookshelf/files/series_reconciler.py:54-102 | a concrete course of events in which a grabbed book is searched a second time |
| ReconcilerRuns.PageStillShowsGrab | k8s/plex/bookshelf/files/series_reconciler.py:54-60 | with fewer than fifty later records a grab or import is seen |

## Left out

- HookAgreement.StreamingAgrees: call ids and the content left beside calls are not compared.
- GuardRuns.GuardedRunsBounded: streams are put together by a client that joins the deltas of all choices; one that follows a single choice differs only for chunks with several choices.
- HookIdempotence.StreamingIdempotentIff: a second run reads the calls of a synthesised stream back. Within one process they are dicts, on which the attribute lookups of the hook find no index, so it would see none and pass the stream through.
- HookIdempotence.DeliverIdempotentIff: a second run reads the delivered calls back. Within one process they are dicts, on which the attribute lookups of the hook find no function, so it would judge a call without name and arguments.
- WrappingInvariance.FencedCallsExact: a fence with nothing but white space behind its language is left out; the pattern matches it together with the text up to a later fence.
- WrappingInvariance.SameCallsHoweverWrapped: payloads and prose that open or close tags or fences are left out.
- EntropyFill.Arc4Random: the machine is little-endian. `errno` is not modelled.
- MixedAnswers.MixedAnswer: a tag holds one dict; prose with quotes or braces is covered only where a tag or a fence holds a call.
- ReconcilerRuns.SearchedAtMostOnce: books and authors are not deleted, and a run is one step.
- SeriesNames.SeriesNameExact: the digits of a volume number are those of ASCII.
- JsonTexts.LoadsIff: Python literals are described from tokens on, and their strings in `PythonLiterals.PythonStringRead`; which character sequences are no Python literal is not stated.
- PythonLiterals.PythonStringRead: octal escapes of fewer than three digits and unknown escapes, which Python keeps as they are, are in the model but not in this statement.
- JSON numbers with a fraction or an exponent, `NaN` and infinities.
- Python literals beyond dicts with string keys, lists, strings, integers, `True`, `False` and `None`: tuples, sets, other keys, comments, line continuations and `\N{...}` escapes in strings, adjacent strings, digit separators.
- Unpaired surrogates in `\u` escapes, which Python keeps and the model rejects.
- Python's equality across types (`True == 1`), which matters only for call names that are not strings, and `str` of such names in the guard's text, which is approximated by the literal.
- Missing and empty lists of tool calls or messages are the same value; so are a missing and a null name.
- Choices of a response, and their messages, are assumed to be distinct objects.
- Exceptions inside the chunk loop: the typed chunks of the model raise none.
- Random call ids, logging, reading the environment, the accessors for dicts and models, asynchronous iteration.
- The other wrappers of the shim (formatted input, file opening, wide-number functions): single forwarded calls.
- HTTP errors and malformed answers of the Bookshelf server.
- The rest of the benchmark, and the header search in front of the cutter's loop; the connection limiter and the video helper.
