/** The provider-independent `Response` of lib/response.rb: the text, the
    tool calls and the token counts of a chat-completion reply.

    Every provider the class knows answers in the OpenAI-compatible shape: a
    list of choices, each with a message holding its content and its tool
    calls, and a usage object of optional counters. The parsed JSON is
    modelled by the fields the class reads; the usage object is a map from
    counter name to value, so an absent counter and a JSON null are both
    nil. */
module ProviderResponse {
  import opened Wrappers
  import opened RubyString

  /** The providers whose replies the class reads. */
  predicate Known(provider: string) {
    provider in ["deepseek", "perplexity", "openai", "open_router", "anthropic"]
  }

  datatype ToolCall = ToolCall(id: string, name: string, arguments: string)

  datatype Message = Message(content: Option<string>, toolCalls: Option<seq<ToolCall>>)

  datatype Choice = Choice(message: Option<Message>)

  datatype Data = Data(choices: Option<seq<Choice>>, usage: Option<map<string, int>>)

  function UnknownProvider(provider: string): Error {
    RuntimeError("Unknown provider: " + provider)
  }

  /** Every choice carries a message, so reading `choice['message'][...]` cannot raise. */
  predicate HasMessages(choices: seq<Choice>) {
    forall i :: 0 <= i < |choices| ==> choices[i].message.Some?
  }

  /** The reply can be read: it has a choice list and every choice a message. */
  predicate Readable(data: Data) {
    data.choices.Some? && HasMessages(data.choices.value)
  }

  // ---------------------------------------------------------------------------
  // content

  /** Each choice's message content; `join` renders a nil content as empty text. */
  function ChoiceContents(choices: seq<Choice>): (r: Result<seq<string>>)
    ensures r.Success? <==> HasMessages(choices)
    ensures r.Success? ==> |r.value| == |choices|
    ensures r.Success? ==> forall i :: 0 <= i < |choices| ==>
              r.value[i] == choices[i].message.value.content.GetOr("")
  {
    if |choices| == 0 then Success([])
    else
      match choices[0].message
      case None => Failure(NoMethodOnNil("[]"))
      case Some(m) =>
        var rest := ChoiceContents(choices[1..]);
        assert forall i :: 0 < i < |choices| ==> choices[i] == choices[1..][i - 1];
        match rest
        case Failure(e) =>
          assert !HasMessages(choices) by {
            var i :| 0 <= i < |choices[1..]| && choices[1..][i].message.None?;
            assert choices[i + 1] == choices[1..][i];
          }
          Failure(e)
        case Success(texts) => Success([m.content.GetOr("")] + texts)
  }

  /** `openai_compatible_content`: the texts of all choices, in choice order, joined by newlines. */
  function OpenAICompatibleContent(data: Data): (r: Result<string>)
    ensures r.Success? <==> Readable(data)
    ensures r.Success? ==> r.value == Join(ChoiceContents(data.choices.value).value, "\n")
  {
    match data.choices
    case None => Failure(NoMethodOnNil("map"))
    case Some(choices) =>
      var texts :- ChoiceContents(choices);
      Success(Join(texts, "\n"))
  }

  /** `content`: the choices' texts joined by newlines; raises for an unknown provider. */
  function Content(provider: string, data: Data): (r: Result<string>)
    ensures r.Success? <==> Known(provider) && Readable(data)
    ensures !Known(provider) ==> r == Failure(UnknownProvider(provider))
    ensures r.Success? ==> r.value == Join(ChoiceContents(data.choices.value).value, "\n")
    ensures Known(provider) && Readable(data) && |data.choices.value| == 0 ==> r == Success("")
    ensures Known(provider) && Readable(data) && |data.choices.value| == 1 ==>
              r == Success(data.choices.value[0].message.value.content.GetOr(""))
  {
    if Known(provider) then OpenAICompatibleContent(data) else Failure(UnknownProvider(provider))
  }

  /** `reasoning_content`, which reads the same message contents as `content`. */
  function ReasoningContent(provider: string, data: Data): (r: Result<string>)
    ensures r.Success? <==> Known(provider) && Readable(data)
  {
    if Known(provider) then
      match data.choices
      case None => Failure(NoMethodOnNil("map"))
      case Some(choices) =>
        var texts :- ChoiceContents(choices);
        Success(Join(texts, "\n"))
    else Failure(UnknownProvider(provider))
  }

  /** The reasoning text is the reply text itself. */
  lemma {:induction false} ReasoningIsContent(provider: string, data: Data)
    ensures ReasoningContent(provider, data) == Content(provider, data)
  {
  }

  /** The text of each choice can be recovered from `content` by splitting
      on newlines, when the choices' texts hold none themselves. */
  lemma {:induction false} ContentSplitsBack(provider: string, data: Data)
    requires Known(provider) && Readable(data) && |data.choices.value| > 0
    requires forall i :: 0 <= i < |data.choices.value| ==>
               '\n' !in data.choices.value[i].message.value.content.GetOr("")
    ensures var choices := data.choices.value;
            var text := Content(provider, data).value;
            && |Fields(text)| == |choices|
            && forall i :: 0 <= i < |choices| ==>
                 Fields(text)[i] == choices[i].message.value.content.GetOr("")
  {
    var texts := ChoiceContents(data.choices.value).value;
    FieldsOfJoin(texts);
  }

  /** The text of two lists of choices is the text of the first, a newline,
      and the text of the second: `join` never drops or merges a choice. */
  lemma {:induction false} ContentAppend(provider: string, a: seq<Choice>, b: seq<Choice>, usage: Option<map<string, int>>)
    requires Known(provider) && HasMessages(a) && HasMessages(b)
    requires |a| > 0 && |b| > 0
    ensures Content(provider, Data(Some(a + b), usage)).Success?
    ensures Content(provider, Data(Some(a + b), usage)).value
              == Content(provider, Data(Some(a), usage)).value + "\n" + Content(provider, Data(Some(b), usage)).value
  {
    var ta := ChoiceContents(a).value;
    var tb := ChoiceContents(b).value;
    assert HasMessages(a + b) by {
      forall i | 0 <= i < |a + b| ensures (a + b)[i].message.Some? {
        if i < |a| { assert (a + b)[i] == a[i]; } else { assert (a + b)[i] == b[i - |a|]; }
      }
    }
    var tab := ChoiceContents(a + b).value;
    assert tab == ta + tb by {
      forall i | 0 <= i < |tab| ensures tab[i] == (ta + tb)[i] {
        if i < |a| { assert (a + b)[i] == a[i]; } else { assert (a + b)[i] == b[i - |a|]; }
      }
    }
    JoinConcat(ta, tb, "\n");
  }

  // ---------------------------------------------------------------------------
  // tool calls

  /** The tool calls one choice contributes: none when its list is nil. */
  function CallsOf(c: Choice): seq<ToolCall> {
    match c.message
    case Some(Message(_, Some(calls))) => calls
    case _ => []
  }

  /** `choices.map { ... ['tool_calls'] }.flatten.compact`. */
  function ChoiceToolCalls(choices: seq<Choice>): (r: Result<seq<ToolCall>>)
    ensures r.Success? <==> HasMessages(choices)
    ensures r.Success? ==> forall t :: t in r.value <==> exists i :: 0 <= i < |choices| && t in CallsOf(choices[i])
    ensures |choices| == 0 ==> r == Success([])
    ensures |choices| == 1 && r.Success? ==> r.value == CallsOf(choices[0])
  {
    if |choices| == 0 then Success([])
    else
      match choices[0].message
      case None => Failure(NoMethodOnNil("[]"))
      case Some(m) =>
        var rest := ChoiceToolCalls(choices[1..]);
        assert forall i :: 0 < i < |choices| ==> choices[i] == choices[1..][i - 1];
        match rest
        case Failure(e) =>
          assert !HasMessages(choices) by {
            var i :| 0 <= i < |choices[1..]| && choices[1..][i].message.None?;
            assert choices[i + 1] == choices[1..][i];
          }
          Failure(e)
        case Success(calls) =>
          var r := CallsOf(choices[0]) + calls;
          assert |choices| == 1 ==> calls == [] && r == CallsOf(choices[0]);
          assert forall t :: t in r <==> exists i :: 0 <= i < |choices| && t in CallsOf(choices[i]) by {
            forall t | t in r ensures exists i :: 0 <= i < |choices| && t in CallsOf(choices[i]) {
              if t !in CallsOf(choices[0]) {
                var i :| 0 <= i < |choices[1..]| && t in CallsOf(choices[1..][i]);
                assert choices[i + 1] == choices[1..][i];
              }
            }
            forall t, i | 0 <= i < |choices| && t in CallsOf(choices[i]) ensures t in r {
              if i > 0 {
                assert choices[1..][i - 1] == choices[i];
              }
            }
          }
          Success(r)
  }

  /** `tool_calls`: every choice's tool calls, nil lists dropped; raises for an unknown provider. */
  function ToolCalls(provider: string, data: Data): (r: Result<seq<ToolCall>>)
    ensures r.Success? <==> Known(provider) && Readable(data)
    ensures !Known(provider) ==> r == Failure(UnknownProvider(provider))
  {
    if !Known(provider) then Failure(UnknownProvider(provider))
    else
      match data.choices
      case None => Failure(NoMethodOnNil("map"))
      case Some(choices) => ChoiceToolCalls(choices)
  }

  /** The tool calls of two runs of choices are those of the first, then those of the second. */
  lemma {:induction false} ToolCallsAppend(a: seq<Choice>, b: seq<Choice>)
    requires HasMessages(a) && HasMessages(b)
    ensures ChoiceToolCalls(a + b) == Success(ChoiceToolCalls(a).value + ChoiceToolCalls(b).value)
    decreases |a|
  {
    if |a| == 0 {
      assert a + b == b;
      assert ChoiceToolCalls(a) == Success([]);
      var tb := ChoiceToolCalls(b).value;
      assert [] + tb == tb;
    } else {
      assert (a + b)[1..] == a[1..] + b;
      assert HasMessages(a[1..]) by {
        forall i | 0 <= i < |a[1..]| ensures a[1..][i].message.Some? {
          assert a[1..][i] == a[i + 1];
        }
      }
      ToolCallsAppend(a[1..], b);
      assert (a + b)[0] == a[0];
      var head := CallsOf(a[0]);
      var ta := ChoiceToolCalls(a[1..]).value;
      var tb := ChoiceToolCalls(b).value;
      assert ChoiceToolCalls(a) == Success(head + ta);
      assert ChoiceToolCalls(a + b) == Success(head + (ta + tb));
      assert head + (ta + tb) == (head + ta) + tb;
    }
  }

  // ---------------------------------------------------------------------------
  // token accounting

  /** `data.dig('usage', key)` */
  function Dig(data: Data, key: string): (r: Option<int>)
    ensures r.Some? <==> data.usage.Some? && key in data.usage.value
  {
    match data.usage
    case None => None
    case Some(usage) => if key in usage then Some(usage[key]) else None
  }

  /** `input_tokens`: the reported prompt count for a known provider, 0
      when the reply reports none or the provider is unknown. */
  function InputTokens(provider: string, data: Data): (r: int)
    ensures !Known(provider) ==> r == 0
    ensures Known(provider) && Dig(data, "prompt_tokens").Some? ==> r == Dig(data, "prompt_tokens").value
    ensures Known(provider) && Dig(data, "prompt_tokens").None? ==> r == 0
  {
    if Known(provider) then Dig(data, "prompt_tokens").GetOr(0) else 0
  }

  /** Perplexity reports no completion count; it is the total less the prompt. */
  function PerplexityOutputTokens(data: Data): (r: int)
    ensures Dig(data, "prompt_tokens").None? ==> r == Dig(data, "total_tokens").GetOr(0)
    ensures Dig(data, "total_tokens").None? ==> r == -Dig(data, "prompt_tokens").GetOr(0)
    ensures Dig(data, "total_tokens").Some? && Dig(data, "prompt_tokens").Some? ==>
              r + Dig(data, "prompt_tokens").value == Dig(data, "total_tokens").value
  {
    Dig(data, "total_tokens").GetOr(0) - Dig(data, "prompt_tokens").GetOr(0)
  }

  /** `output_tokens`: the reported completion count for a known provider
      other than Perplexity (0 when absent), Perplexity's derived count, and
      0 for an unknown provider. */
  function OutputTokens(provider: string, data: Data): (r: int)
    ensures !Known(provider) ==> r == 0
    ensures provider == "perplexity" ==> r == PerplexityOutputTokens(data)
    ensures Known(provider) && provider != "perplexity" ==> r == Dig(data, "completion_tokens").GetOr(0)
  {
    if provider == "perplexity" then PerplexityOutputTokens(data)
    else if Known(provider) then Dig(data, "completion_tokens").GetOr(0)
    else 0
  }

  /** `total_tokens`: the reported total for a known provider, and the sum
      of the input and output counts when the reply reports none. */
  function TotalTokens(provider: string, data: Data): (r: int)
    ensures !Known(provider) ==> r == 0
    ensures Known(provider) && Dig(data, "total_tokens").Some? ==> r == Dig(data, "total_tokens").value
    ensures Known(provider) && Dig(data, "total_tokens").None? ==>
              r == InputTokens(provider, data) + OutputTokens(provider, data)
  {
    if Known(provider) then
      match Dig(data, "total_tokens")
      case Some(t) => t
      case None => InputTokens(provider, data) + OutputTokens(provider, data)
    else 0
  }

  /** A provider the class does not know has no text and no tokens. */
  lemma {:induction false} UnknownProviderReadsNothing(provider: string, data: Data)
    requires !Known(provider)
    ensures Content(provider, data).Failure? && ReasoningContent(provider, data).Failure?
    ensures ToolCalls(provider, data).Failure?
    ensures InputTokens(provider, data) == 0 && OutputTokens(provider, data) == 0
    ensures TotalTokens(provider, data) == 0
  {
  }

  /** For Perplexity the three counts always agree, whatever the reply reports. */
  lemma {:induction false} PerplexityTokensAddUp(data: Data)
    ensures InputTokens("perplexity", data) + OutputTokens("perplexity", data) == TotalTokens("perplexity", data)
  {
  }

  /** `anthropic_input_tokens`: the plain, cache-creation and cache-read
      input counts summed when all three are reported, and otherwise (the
      rescue branch) the plain count or 0. */
  function AnthropicInputTokens(data: Data): (r: int)
    ensures Dig(data, "input_tokens").None? ==> r == 0
    ensures !AllInputCounts(data) ==> r == Dig(data, "input_tokens").GetOr(0)
    ensures AllInputCounts(data) ==>
              r == Dig(data, "input_tokens").value + Dig(data, "cache_creation_input_tokens").value
                     + Dig(data, "cache_read_input_tokens").value
  {
    match (Dig(data, "input_tokens"), Dig(data, "cache_creation_input_tokens"), Dig(data, "cache_read_input_tokens"))
    case (Some(a), Some(b), Some(c)) => a + b + c
    case _ => Dig(data, "input_tokens").GetOr(0)
  }

  /** Whether the usage record reports all three input counts. */
  predicate AllInputCounts(data: Data) {
    Dig(data, "input_tokens").Some? && Dig(data, "cache_creation_input_tokens").Some?
      && Dig(data, "cache_read_input_tokens").Some?
  }
}
