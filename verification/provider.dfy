/** `Provider.new` of lib/provider.rb: the factory that picks a client
    class for a provider symbol and fills in a default model.

    The client classes themselves talk to the network and are not part of
    the model; an instance is the class chosen and the keyword arguments it
    would be constructed with. */
module Provider {
  import opened Wrappers
  import opened OrderedMap

  datatype ClientClass = OpenRouter | Perplexity | DeepSeek

  /** The providers the forecasting scripts poll, in order. */
  const Forecasters: seq<string> := ["anthropic", "openai", "perplexity", "deepseek"]

  /** `PROVIDER_CLASSES`, in its declared order. */
  const ProviderClasses: OMap<string, ClientClass> :=
    [("anthropic", OpenRouter), ("perplexity", Perplexity), ("deepseek", DeepSeek), ("openai", OpenRouter)]

  /** Keyword arguments: each value a string or nil. */
  type Args = OMap<string, Option<string>>

  datatype Client = Client(clientClass: ClientClass, args: Args)

  const AnthropicModel: string := "anthropic/claude-opus-4.5"
  const OpenAIModel: string := "openai/gpt-5.2"

  /** The model argument, nil when absent or given as nil. */
  function GivenModel(args: Args): Option<string> {
    match Get(args, "model")
    case None => None
    case Some(v) => v
  }

  /** `args[:model] ||= model`: set the model unless a non-nil one was given. */
  function DefaultModel(args: Args, model: string): (r: Args)
    requires Valid(args)
    ensures Valid(r)
    ensures GivenModel(args).None? ==> Get(r, "model") == Some(Some(model))
    ensures GivenModel(args).Some? ==> r == args
    ensures forall k :: k != "model" ==> Get(r, k) == Get(args, k)
  {
    if GivenModel(args).Some? then args else Put(args, "model", Some(model))
  }

  /** `Provider.new(symbol, **args)` */
  function New(symbol: string, args: Args): (r: Result<Client>)
    requires Valid(args)
    ensures r.Failure? <==> symbol !in Keys(ProviderClasses)
    ensures r.Failure? ==> r.error == ArgumentError("Unknown provider: " + symbol)
    ensures r.Success? ==> Valid(r.value.args) && (symbol, r.value.clientClass) in ProviderClasses
  {
    match Get(ProviderClasses, symbol)
    case None => Failure(ArgumentError("Unknown provider: " + symbol))
    case Some(klass) =>
      if symbol == "anthropic" then Success(Client(klass, DefaultModel(args, AnthropicModel)))
      else if symbol == "openai" then Success(Client(klass, DefaultModel(args, OpenAIModel)))
      else Success(Client(klass, args))
  }

  /** The class each provider symbol is served by. */
  lemma {:induction false} ClassesOfProviders(args: Args)
    requires Valid(args)
    ensures New("anthropic", args).Success? && New("anthropic", args).value.clientClass == OpenRouter
    ensures New("openai", args).Success? && New("openai", args).value.clientClass == OpenRouter
    ensures New("perplexity", args).Success? && New("perplexity", args).value.clientClass == Perplexity
    ensures New("deepseek", args).Success? && New("deepseek", args).value.clientClass == DeepSeek
  {
    assert Keys(ProviderClasses) == ["anthropic", "perplexity", "deepseek", "openai"];
  }

  /** Perplexity and DeepSeek get the arguments exactly as given. */
  lemma {:induction false} ArgumentsPassThrough(symbol: string, args: Args)
    requires Valid(args) && (symbol == "perplexity" || symbol == "deepseek")
    ensures New(symbol, args).Success? && New(symbol, args).value.args == args
  {
    ClassesOfProviders(args);
  }

  /** Anthropic and OpenAI get their default model only when none, or a nil
      one, is given; a given model and every other argument are kept. */
  lemma {:induction false} DefaultModels(symbol: string, args: Args)
    requires Valid(args) && (symbol == "anthropic" || symbol == "openai")
    ensures var model := if symbol == "anthropic" then AnthropicModel else OpenAIModel;
            var r := New(symbol, args);
            && r.Success?
            && GivenModel(r.value.args) == Some(GivenModel(args).GetOr(model))
            && forall k :: k != "model" ==> Get(r.value.args, k) == Get(args, k)
  {
    ClassesOfProviders(args);
  }

  /** Every polled forecaster has a client class. */
  lemma {:induction false} ForecastersAreProviders()
    ensures forall i :: 0 <= i < |Forecasters| ==> Forecasters[i] in Keys(ProviderClasses)
  {
    assert Keys(ProviderClasses) == ["anthropic", "perplexity", "deepseek", "openai"];
  }
}
