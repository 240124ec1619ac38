# metaculous-ai-forecasting, modelled in Dafny

The repository is a set of Ruby scripts that forecast Metaculus questions
with large language models. Each script fetches a question and renders it
into a prompt. It asks several providers for forecasts and reads the answer
block out of each reply. Then it reports panel statistics or posts the result.

This project models the text-processing core of those scripts:

- **tagged blocks**: `extract_xml` and `strip_xml`, which find
  `<tag>…</tag>` blocks in model output (`TaggedBlock`). They rest on Ruby's
  `String#strip`, `split`, `to_i`, `to_f` and `to_s` (`RubyString`,
  `RubyNumber`).
- **answer parsing**: the `ResponseHelpers` parsers that read a binary
  probability, a percentile table or a table of option probabilities from a
  reply (`AnswerParser`). Ruby's `Hash` is modelled as an insertion-ordered
  map (`OrderedMap`).
- **answer formats**: the answer formats appended by `prompt_with_type`. The
  model shows that the parsers read these formats back (`Prompts`).
- **question rendering**: the metadata, criteria and community-aggregate
  blocks that `Metaculus::Question` renders (`QuestionContent`).
- **provider replies**: the provider-independent `Response` accessors for
  content, tool calls and token counts (`ProviderResponse`), and the
  `Provider.new` factory (`Provider`).
- **panel statistics**: the panel medians of forecast_stats.rb
  (`PanelStats`, on top of `Sorting`).
- **post-id handling**: how ete.rb tells a post id from a tournament id
  (`PostId`).
- **retro data**: the ranked, tagged data block of tournament_retro.rb
  (`TournamentRetro`).

## How things are represented

- A Ruby exception becomes `Failure(error)` of the `Result` datatype in
  `Wrappers`. A Ruby `nil` becomes `None`.
- `to_f` is read as the exact rational value of the text it scans, so there
  is no binary floating point.
- The network, the clock, subprocesses and the LLMs are outside the model.
  Where their output matters, it is a parameter: the reply text, the
  lookup script's output in `PostId.Resolve`, and the question list in
  `TournamentRetro`.
- The answer parsers do not clamp probabilities: a value is read as written.
- A malformed or blank line in an answer block raises; it is not skipped.
- Thousands separators are kept: `to_i` and `to_f` stop at the comma, so
  `"1,234"` reads as 1.
- `strip_xml` does not trim the text that is left around a removed block.

## Model

| member | source | states |
|---|---|---|
| TaggedBlock.FirstMatch | lib/utility.rb:6 | None exactly when no opening delimiter is followed by a closing one; otherwise the first opening delimiter, and the first closing delimiter after it, with none in between |
| TaggedBlock.ExtractBetween | lib/utility.rb:5-8 | nil exactly when the text holds no complete block; otherwise the stripped text of the leftmost block, cut at the first closing delimiter after its opening one |
| TaggedBlock.ExtractXml | lib/utility.rb:5-8 | nil exactly when the text holds no `<tag>…</tag>` block; a found body never starts or ends with whitespace |
| TaggedBlock.StripBetween | lib/utility.rb:10-12 | the result is never longer than the text; it is the text itself exactly when there is no block, and strictly shorter when there is one |
| TaggedBlock.StripXml | lib/utility.rb:10-12 | the same three facts for `<tag>` and `</tag>`; the content of the removal is stated by TaggedBlock.StripXmlOfFirstMatch |
| TaggedBlock.FirstMatchOf | lib/utility.rb:6 | the leftmost-then-lazy match is unique: any opening and closing position meeting its conditions is the one found |
| TaggedBlock.ExtractOfFirstMatch | lib/utility.rb:5-8 | for any text, extraction gives the stripped text between the first opening delimiter and the first closing delimiter after it |
| TaggedBlock.StripOfFirstMatch | lib/utility.rb:10-12 | for any text, `gsub` keeps everything before the first block, drops the block with both delimiters, and goes on with the rest of the text after it |
| TaggedBlock.StripXmlOfFirstMatch | lib/utility.rb:10-12 | the same law for `<tag>…</tag>` |
| TaggedBlock.WrittenIsFirstMatch | lib/utility.rb:6 | a body written between delimiters is the first match when the opening delimiter does not occur earlier and the closing one does not occur inside the body |
| TaggedBlock.ExtractOfWrap | lib/utility.rb:5-8 | round trip: a body written between `<tag>` and `</tag>` is extracted as the stripped body, whenever `<tag>` does not occur before it and `</tag>` does not occur inside it |
| TaggedBlock.StripOfWrap | lib/utility.rb:10-12 | under the same conditions, removing a written block keeps the prose before it and goes on removing blocks after it |
| TaggedBlock.AngleFreeOpens | lib/utility.rb:6 | prose without `<` never holds `<tag>`, so the written tag is the first |
| TaggedBlock.NoBlockWithoutAngle | lib/utility.rb:5-12 | text without `<` holds no block: extraction yields nil and stripping changes nothing |
| TaggedBlock.ExtractedBodyHasNoClose | lib/utility.rb:6 | the lazy body of the first match never contains the closing delimiter |
| RubyString.Strip | lib/utility.rb:7 | the result has no leading or trailing whitespace or NUL; it is the text with only such characters removed at both ends |
| RubyString.StripOfPadded | lib/utility.rb:7 | stripping whitespace + unpadded text + whitespace gives back the unpadded text |
| RubyString.FindFrom | lib/utility.rb:6 | the first occurrence of the pattern at or after the start position, or None when there is none after it |
| RubyString.AfterFirst | lib/helpers/response.rb:13 | `split(sep, 2).last` of non-empty text: the text itself exactly when the separator is absent; otherwise the suffix after the first occurrence of the separator |
| RubyString.Split2 | lib/helpers/response.rb:12-14 | `split(sep, 2)`: no pieces for empty text; one piece equal to the text when the separator is absent; otherwise the text around the first occurrence of the separator |
| RubyString.Split2At | lib/helpers/response.rb:12-14 | inverse of joining: splitting `a + sep + b`, when `a` lacks the separator's first character, gives `[a, b]` |
| RubyString.AwkFirst | ete.rb:13 | `split(' ').first`: nil exactly when the text is all whitespace; otherwise a non-empty run of non-space characters |
| RubyString.AwkFirstOf | ete.rb:13 | the first word is recovered from leading spaces, a word and a rest that starts with a space |
| RubyString.Lines | lib/helpers/response.rb:11 | `split("\n")`: the pieces hold no newline and the last is non-empty; joined with newlines plus some trailing newlines, they give back the text |
| RubyString.LinesOfJoin | lib/helpers/response.rb:11 | splitting the newline-join of newline-free lines, the last non-empty, gives back those lines |
| RubyNumber.ToIOfToS | ete.rb:10 | `n.to_s.to_i == n` for every integer |
| RubyNumber.CanonicalRoundTrip | ete.rb:10 | `s.to_i.to_s == s` exactly when `s` is `0`, or an optional `-` and digits without a leading zero |
| RubyNumber.ToIOfToSThen | lib/helpers/response.rb:15 | `to_i` of a printed integer followed by text that cannot continue it (a non-digit other than `_`, `d` or `D`) is that integer |
| RubyNumber.ToFOfToS | lib/helpers/response.rb:15 | `to_f` of a printed integer followed by text that does not continue a number is that integer |
| AnswerParser.ReadNum | lib/helpers/response.rb:15 | the value is a float exactly when the token contains `.` |
| AnswerParser.ReadNumStopsAtComma | lib/helpers/response.rb:15 | thousands separators are not removed: `"1,234"` reads as the integer before the comma |
| AnswerParser.ReadPercent | lib/helpers/response.rb:27 | a value with `%` is read as its `to_f` divided by 100, one without as its `to_f` |
| AnswerParser.ReadNumOfLiteral | lib/helpers/response.rb:15 | a written integer reads as that integer and a written decimal as its exact value |
| AnswerParser.PercentileLine | lib/helpers/response.rb:12-15 | a line fails exactly when it has no `: ` or only whitespace after it |
| AnswerParser.PercentileKeyReads | lib/helpers/response.rb:13 | the key is `to_i` of the text after the first `Percentile `, or of the whole key when it has none; an empty key reads as 0 |
| AnswerParser.PercentileValue | lib/helpers/response.rb:14-15 | the value part fails exactly when it is all whitespace |
| AnswerParser.PercentileLineOf | lib/helpers/response.rb:12-15 | a line `Percentile p: value unit` reads as the pair of `p` and the value |
| AnswerParser.ProbabilityLine | lib/helpers/response.rb:25-27 | a blank line raises; otherwise the pair is read from the text after the first `Option "`, or from the whole line when it has none; a key never contains `": ` |
| AnswerParser.ProbabilityPair | lib/helpers/response.rb:26-27 | the pair fails exactly when it holds no `": `; a key never contains `": ` |
| AnswerParser.ProbabilityLineOf | lib/helpers/response.rb:25-27 | a line `Option "name": value%` reads as the name with the value over 100 |
| AnswerParser.PercentOfLiteral | lib/helpers/response.rb:27 | a value with `%` is read as the number divided by 100 |
| AnswerParser.ParseAll | lib/helpers/response.rb:11-16 | the block parses exactly when every line parses, giving the lines' values in order; otherwise it raises the error of the first line that fails |
| AnswerParser.ParseAllOf | lib/helpers/response.rb:11-16 | lines that each parse to a known value give exactly those values, in order |
| AnswerParser.ExtractedContent | lib/helpers/response.rb:4-6 | corrected helper: the block for the tag is found exactly when the reply holds one |
| AnswerParser.StrippedContent | lib/helpers/response.rb:40-42 | corrected helper: the reply is unchanged exactly when it holds no block for the tag, and never grows |
| AnswerParser.PercentilesOf | lib/helpers/response.rb:8-19 | no block raises at `split`; a block is read exactly when all its lines are; a parsed table never holds a key twice |
| AnswerParser.ProbabilitiesOf | lib/helpers/response.rb:21-31 | no block raises at `split`; a block is read exactly when all its lines are; a parsed table never holds a key twice |
| AnswerParser.PercentilesOfReads | lib/helpers/response.rb:10-17 | each percentile holds the value of its last line, and the percentiles come in the order of their first lines |
| AnswerParser.ProbabilitiesOfReads | lib/helpers/response.rb:23-29 | each option holds the probability of its last line, and the options come in the order of their first lines |
| AnswerParser.PercentileLastLineWins | lib/helpers/response.rb:15 | a repeated percentile takes the value of its last line |
| AnswerParser.ProbabilityLastLineWins | lib/helpers/response.rb:27 | a repeated option takes the probability of its last line |
| AnswerParser.ProbabilityOf | lib/helpers/response.rb:33-38 | fails exactly when there is no block |
| AnswerParser.Percentiles | lib/helpers/response.rb:8-19 | a table is read only from a reply that holds a `<percentiles>` block |
| AnswerParser.Probabilities | lib/helpers/response.rb:21-31 | a table is read only from a reply that holds a `<probabilities>` block |
| AnswerParser.Probability | lib/helpers/response.rb:33-38 | a probability is read exactly when the reply holds a `<probability>` block |
| AnswerParser.PercentilesRoundTrip | lib/helpers/response.rb:8-19 | a reply with a percentiles block of well-formed lines with distinct percentiles reads back as percentile → value, in written order |
| AnswerParser.ProbabilitiesRoundTrip | lib/helpers/response.rb:21-31 | a reply with a probabilities block of well-formed option lines with distinct names reads back as option → percentage / 100, in written order |
| AnswerParser.ProbabilityRoundTrip | lib/helpers/response.rb:33-38 | a reply with `<probability>X%</probability>` reads back as X / 100 |
| AnswerParser.AsWrittenNeverReads | lib/helpers/response.rb:4-6 | as written, with the arguments swapped, all three parsers raise on every reply |
| AnswerParser.StrippedAsWrittenIsTag | lib/helpers/response.rb:40-42 | as written, `stripped_content(tag)` returns the tag name for every reply |
| AnswerParser.SwappedArgumentsLoseAnswer | lib/helpers/response.rb:4-6 | the same binary reply that the corrected helper reads is rejected by the helper as written |
| OrderedMap.PutAllSnoc | lib/helpers/response.rb:15 | assigning one more pair after a sequence of assignments is one more `[]=` on the resulting hash |
| OrderedMap.PutAllKeys | lib/helpers/response.rb:15 | after a sequence of `[]=`, the keys are the old keys, then the new ones, each in the order of its first assignment |
| OrderedMap.PutAllGet | lib/helpers/response.rb:15 | after a sequence of `[]=`, a key holds the value of its last assignment, or its old value when none assigned it |
| OrderedMap.FirstSeenOrder | lib/helpers/response.rb:15 | keys keep the order in which they were first inserted |
| OrderedMap.LastValueAt | lib/helpers/response.rb:15 | an assignment that no later one to the same key follows decides that key's value |
| Sorting.Insert | forecast_stats.rb:59 | inserting into a sorted sequence keeps it sorted and adds exactly that element |
| Sorting.Sort | forecast_stats.rb:59 | the result is sorted and a permutation of the input |
| Sorting.SortedUnique | forecast_stats.rb:59 | two sorted permutations of the same values are equal |
| Sorting.SortOrderFree | forecast_stats.rb:59 | the sorted values depend only on the multiset of values |
| PanelStats.At | forecast_stats.rb:61 | Ruby array indexing: defined exactly for `-n <= i < n`; the i-th element for `i >= 0`, the element `-i` from the end for negative `i` |
| PanelStats.MidPositions | forecast_stats.rb:60-61 | the floor and ceiling of `(n - 1) / 2.0`: `((n-1)/2, n/2)` for a non-empty panel, `(-1, 0)` for an empty one |
| PanelStats.Median | forecast_stats.rb:59-61 | the median fails, as nil + nil raises, exactly when there are no values |
| PanelStats.MedianOdd | forecast_stats.rb:59-61 | for an odd count, the middle sorted value |
| PanelStats.MedianEven | forecast_stats.rb:59-61 | for an even count, the mean of the two middle sorted values |
| PanelStats.MedianBetween | forecast_stats.rb:59-61 | the median lies within any bounds that hold every value |
| PanelStats.MedianOrderFree | forecast_stats.rb:59-61 | the order in which forecasters answered does not change the median |
| PanelStats.BinaryStats | forecast_stats.rb:56-62 | succeeds exactly for a non-empty panel, with the panel's size as count and its median |
| PanelStats.Column | forecast_stats.rb:69 | succeeds exactly when every forecast has the key, with the j-th forecast's value in position j |
| PanelStats.KeyStatsFor | forecast_stats.rb:68-75 | succeeds exactly when every forecast has every key; one line per key, in order, with the panel size and the column's median |
| PanelStats.ChoiceStats | forecast_stats.rb:65-76 | succeeds exactly for a non-empty panel in which every forecast has every option of the first; one line per option of the first forecast, in its order |
| PanelStats.ChoiceStatsIgnoresExtraKeys | forecast_stats.rb:68-69 | options that only later forecasts have are never reported |
| QuestionContent.MetadataLines | lib/metaculus.rb:92-100 | raises exactly when scaling or unit is missing; otherwise the lower-bound, units and upper-bound lines that are due, each at most once, in that order |
| QuestionContent.MetadataEmpty | lib/metaculus.rb:92-100 | the metadata block is empty exactly when no line is due |
| QuestionContent.CriteriaContent | lib/metaculus.rb:67-69 | the criteria block is never padded and is empty when neither text is present |
| QuestionContent.CriteriaOfTrimmed | lib/metaculus.rb:67-69 | two texts that are already trimmed at the outer ends are joined by a blank line |
| QuestionContent.CriteriaOfOne | lib/metaculus.rb:67-69 | a single text present is stripped and used alone |
| QuestionContent.UpperBoundFor | lib/metaculus.rb:114-116 | the upper bound is available exactly when scaling and `range_max` are present |
| QuestionContent.LatestMedian | lib/metaculus.rb:79-86 | empty for types other than binary and numeric; raises exactly when such a question lacks a center, or a numeric one lacks an upper bound |
| QuestionContent.AggregateLines | lib/metaculus.rb:45-61 | raises exactly when there is no aggregation or the median raises; otherwise exactly the due lines, in order, starting with the forecaster count |
| QuestionContent.LinesOf | lib/metaculus.rb:47-58 | the assembled lines are exactly the due ones, in rank order, the forecaster count first |
| QuestionContent.AggregateShape | lib/metaculus.rb:45-61 | there is exactly one median line, and a mean line exactly when a mean is present |
| QuestionContent.MedianEmptyForOtherTypes | lib/metaculus.rb:50 | for other question types the median line is written with an empty value |
| QuestionContent.IntervalsOnlyForNumeric | lib/metaculus.rb:51-58 | the interval lines appear only for numeric questions |
| QuestionContent.MetadataContent | lib/metaculus.rb:92-100 | raises exactly when scaling or unit is missing |
| QuestionContent.AggregateContent | lib/metaculus.rb:45-61 | raises exactly when the aggregate lines do |
| ProviderResponse.ChoiceContents | lib/response.rb:165-167 | succeeds exactly when every choice has a message; one text per choice, empty for a nil content |
| ProviderResponse.OpenAICompatibleContent | lib/response.rb:165-167 | succeeds exactly when the reply has choices and each a message; the value is the choices' texts, in choice order, joined by newlines |
| ProviderResponse.Content | lib/response.rb:33-42 | succeeds exactly for a known provider and a readable reply, with the choices' texts joined by newlines; no choices give empty text and a single choice gives its own text; an unknown provider raises its error |
| ProviderResponse.ContentAppend | lib/response.rb:165-167 | the text of two non-empty lists of choices is the text of the first, a newline, then the text of the second, whatever newlines the texts hold |
| ProviderResponse.ContentSplitsBack | lib/response.rb:165-167 | splitting the content at newlines gives back each choice's text, when those texts hold no newline |
| ProviderResponse.ReasoningIsContent | lib/response.rb:44-53 | the reasoning content is the content, for every provider and reply |
| ProviderResponse.ChoiceToolCalls | lib/response.rb:176-178 | succeeds exactly when every choice has a message; the calls are exactly those of all the choices; no choices give no calls, and a single choice gives its own calls |
| ProviderResponse.ToolCalls | lib/response.rb:55-64 | succeeds exactly for a known provider and a readable reply |
| ProviderResponse.ToolCallsAppend | lib/response.rb:176-178 | the calls of two lists of choices are the calls of the first followed by those of the second |
| ProviderResponse.UnknownProviderReadsNothing | lib/response.rb:33-116 | for an unknown provider the readers raise and every token count is 0 |
| ProviderResponse.InputTokens | lib/response.rb:83-92 | 0 for an unknown provider; for a known one, the reported prompt tokens, or 0 when they are not reported |
| ProviderResponse.OutputTokens | lib/response.rb:94-105 | 0 for an unknown provider; Perplexity's is derived from its total; any other known provider's is the reported completion tokens, or 0 |
| ProviderResponse.PerplexityOutputTokens | lib/response.rb:194-198 | output plus prompt tokens equals the reported total when both are present; a missing count is taken as 0, so the result can be negative |
| ProviderResponse.TotalTokens | lib/response.rb:107-116 | 0 for an unknown provider; otherwise the reported total, or else input plus output |
| ProviderResponse.PerplexityTokensAddUp | lib/response.rb:94-116 | for Perplexity, input plus output always equals the total |
| ProviderResponse.AnthropicInputTokens | lib/response.rb:146-150 | with all three counters present the input count is their sum; when any is missing, `fetch_values` raises and the count falls back to `input_tokens`, or 0 |
| Provider.DefaultModel | lib/provider.rb:35-37 | `args[:model] ||= m`: the model is set only when none or nil was given, and every other argument is kept |
| Provider.New | lib/provider.rb:29-41 | raises `Unknown provider` exactly for a symbol outside the class table; otherwise the class the table maps it to |
| Provider.ClassesOfProviders | lib/provider.rb:19-24 | anthropic and openai go to OpenRouter, perplexity to Perplexity, deepseek to DeepSeek |
| Provider.ArgumentsPassThrough | lib/provider.rb:33-40 | Perplexity and DeepSeek get the arguments unchanged |
| Provider.DefaultModels | lib/provider.rb:33-38 | anthropic and openai get their default model unless one was given, and the other arguments unchanged |
| Provider.ForecastersAreProviders | lib/provider.rb:11-24 | every forecaster in the list has a client class |
| PostId.Resolve | ete.rb:6-19 | raises exactly when no argument is given; a post id is used as it is |
| PostId.PostIdIffCanonical | ete.rb:10 | an argument is a post id exactly when it is an integer written as Ruby writes integers |
| PostId.PrintedIntegersAreDirect | ete.rb:10 | every printed integer is taken as a post id |
| PostId.BadStartIsLookedUp | ete.rb:10-14 | an argument that starts with something other than a digit or `-` is looked up |
| PostId.LeadingZeroIsLookedUp | ete.rb:10-14 | an argument with a leading zero is looked up |
| PostId.TrailingTextIsLookedUp | ete.rb:10-14 | an argument that does not end in a digit is looked up |
| PostId.NearMissesAreLookedUp | ete.rb:10-14 | `0578`, `+5`, ` 5`, `5a`, `-0` and a tournament slug are all looked up |
| PostId.LookupPath | ete.rb:10-19 | for a looked-up argument, there are no questions exactly when the lookup prints only whitespace; otherwise its first word is the post |
| PostId.DirectPathRuns | ete.rb:10-11 | a post id always leads to a run |
| Prompts.Suffix | lib/prompts.rb:128-137 | instructions exist exactly for binary, discrete, numeric and multiple_choice; any other type raises `Missing template for type` |
| Prompts.PromptWithType | lib/prompts.rb:126-139 | succeeds exactly when the type has instructions; the rendered template comes first |
| Prompts.DiscreteIsNumeric | lib/prompts.rb:131-132 | discrete and numeric questions get the same prompt |
| Prompts.PromptEndsWithFormat | lib/prompts.rb:126-139 | each type's prompt is the template, the guidance, then the answer format its parser reads |
| Prompts.BinaryFormatBlock | lib/prompts.rb:84-87 | the binary format's block reads as `X%` |
| Prompts.NumericFormatBlock | lib/prompts.rb:96-109 | the numeric format's block reads as its eleven template lines, in order |
| Prompts.ChoiceFormatBlock | lib/prompts.rb:117-123 | the multiple-choice format's block reads as its four sample lines, in order |
| Prompts.RequestedIncreasing | lib/prompts.rb:98-108 | the requested percentiles are strictly increasing and lie strictly between 0 and 100 |
| Prompts.TemplateLabelsRead | lib/prompts.rb:98-108 | each template label, padding included, reads back through the percentile parser's key rule as the percentile it asks for |
| Prompts.RequestedAnswerReadsBack | lib/prompts.rb:96-109 | an answer that fills the numeric template reads back as the eleven requested percentiles, in order, each with its value |
| TournamentRetro.Scored | tournament_retro.rb:13 | `reject!` keeps exactly the questions with a score, with their multiplicities |
| TournamentRetro.Reverse | tournament_retro.rb:15 | the i-th element is the i-th from the end; same elements |
| TournamentRetro.Ranked | tournament_retro.rb:13-15 | the scored questions, and only they, from best to worst score |
| TournamentRetro.Round | tournament_retro.rb:19 | `Float#round`: the nearest integer, halves rounded away from zero |
| TournamentRetro.Block | tournament_retro.rb:17-22 | a record starts with a tag and ends with a tag and a newline; what it holds is stated by TournamentRetro.BlockScoreReads and TournamentRetro.BlockTitleReads |
| TournamentRetro.BlockScoreReads | tournament_retro.rb:17-22 | the record's `spot_peer_score` block reads back as the rounded score, and `to_i` of it gives that integer |
| TournamentRetro.BlockTitleReads | tournament_retro.rb:17-22 | the record's `title` block reads back as the stripped title, whenever the title does not contain `</title>` |
| TournamentRetro.RetroData | tournament_retro.rb:34 | the data is empty exactly when no question has a score; its content is stated by TournamentRetro.RetroDataShape |
| TournamentRetro.RetroDataShape | tournament_retro.rb:34 | the data is empty exactly when no question has a score; otherwise it is the records, best first, with only the final newline removed |

## Left out

- The HTTP clients, Metaculus API calls, subprocesses (`system`, backticks), the file cache, the clock and terminal output (`Formatador`) are outside the model. Their outputs are parameters where they matter.
- Float arithmetic and rounding of reals are not modelled: `round(10)`, `round(3)` and `round(2)`, `format('%0.2f%%')`, and the products in `latest_mean` and `latest_median`. `QuestionContent` keeps every rendered number as the text Ruby would interpolate.
- PanelStats.Median: states the exact rational median, without the `round(10)` of each value and the `round(3)` of the result.
- The standard deviation printed by forecast_stats.rb (`stddev`) and a CDF encoding for numeric forecasts are not defined in the modelled files and are not part of this model.
- The prompt prose is a parameter (`Prompts.Guidance`), and ERB rendering of the templates is a parameter (`rendered`). Only the answer-format sections, which the parsers depend on, are spelled out.
- Tags are taken literally. Regex metacharacters in a tag are not interpreted, and the `RegexpError` that a malformed pattern raises is not modelled. This matters for the as-written helpers, which build the pattern from the whole reply.
- TaggedBlock.StripBetween: requires a non-empty closing delimiter, so that each removal makes progress. `strip_xml` always has one (`</tag>`). Its own contract states lengths only; what it keeps and drops is stated by TaggedBlock.StripOfFirstMatch.
- TaggedBlock.StripXml: its own contract states lengths only; what `gsub` keeps and drops is stated by TaggedBlock.StripXmlOfFirstMatch.
- Cost computations (`cost`, `open_router_cost`, `deepseek_cost`, `perplexity_cost`) are floating-point sums of prices and are left out.
- The Anthropic-native readers of lib/response.rb (`anthropic_content`, `anthropic_reasoning_content`, `anthropic_tool_calls`, `anthropic_cost`) are unused there, since every provider takes the OpenAI-compatible path. Only `anthropic_input_tokens` is modelled (`ProviderResponse.AnthropicInputTokens`).
- ProviderResponse: JSON `null` and an absent key are the same `nil`. `nil` entries inside a `tool_calls` list, which `compact` would drop, are not represented.
- QuestionContent: a post whose `data['question']` is nil raises before any field is read. This is not represented separately from a missing aggregation or scaling.
- QuestionContent.AggregateLines: a `means`, `interval_lower_bounds` or `interval_upper_bounds` list that is present but empty makes Ruby raise at `nil * x`. The model treats such a list as absent, so it omits the line instead of raising. An empty `centers` list raises like a missing one, and the model covers both.
- Output a script prints before it raises is not modelled: each modelled operation either returns its value or fails.
- TournamentRetro.Ranked: Ruby's `sort_by!` is not stable. The model sorts stably, and its contract states only what holds for any order among equal scores: a permutation of the scored questions, best first.
- The `@memo ||=` caching of every accessor is not modelled. The accessors are pure functions of the parsed data.

## Findings

| source | as written | input that shows it | evidently intended | confidence | as-written member | corrected member |
|---|---|---|---|---|---|---|
| lib/helpers/response.rb:5 | `extracted_content` calls `extract_xml(content, *tags)`, but lib/utility.rb:5 takes `(tag, text)`. The reply is used as the tag and the tag name as the text, so no block is ever found and `percentiles`, `probabilities` and `probability` raise on `nil`. deepnews.rb:49 passes the text first as well, and also calls `join` on the result as if it were an Array. | the reply `"<probability>\n25%\n</probability>\n"`: `probability` raises instead of returning 0.25 | `extract_xml(tag, content)`, as lib/anthropic.rb:95 and lib/perplexity.rb:105 call it | not executed | AnswerParser.ProbabilityAsWritten, AnswerParser.AsWrittenNeverReads, AnswerParser.SwappedArgumentsLoseAnswer | AnswerParser.Probability, AnswerParser.ProbabilityRoundTrip |
| lib/helpers/response.rb:41 | `stripped_content` calls `strip_xml(content, *tags)` with the same swap, so it returns the tag name instead of the reply without its blocks | any reply and the tag `"probability"`: the result is `"probability"` | `strip_xml(tag, content)`, as lib/anthropic.rb:107 and lib/perplexity.rb:131 call it | not executed | AnswerParser.StrippedAsWrittenIsTag | AnswerParser.StrippedContent, TaggedBlock.StripOfWrap |
