/** `prompt_with_type` of lib/prompts.rb: the rendered forecast template
    followed by the answer instructions for the question's type.

    Each instruction constant is guidance prose followed by an answer
    format: a sample block in the tag the matching parser reads. The prose
    is a parameter (`Guidance`); the format sections, which are the grammar
    the parsers expect, are spelled out. */
module Prompts {
  import opened Wrappers
  import opened RubyString
  import opened RubyNumber
  import opened TaggedBlock
  import opened AnswerParser

  /** The guidance prose each answer-format constant opens with. */
  datatype Guidance = Guidance(binary: string, numeric: string, multipleChoice: string)

  /** The line that introduces a sample block, after a blank line. */
  function FormatIntro(noun: string): string {
    "\nYour " + noun + " should be in this format:\n"
  }

  /** The answer format of `BINARY_FORECAST_PROMPT`. */
  function BinaryFormat(): string {
    Wrap("probability", FormatIntro("prediction"), BlockBody(["X%"]), "\n")
  }

  /** The percentiles the numeric format asks for, in order. */
  const RequestedPercentiles: seq<nat> := [5, 10, 20, 30, 40, 50, 60, 70, 80, 90, 95]

  /** The placeholders standing for the eleven values. */
  const Placeholders: string := "ABCDEFGHIJK"

  /** The template pads one-digit percentiles so that the colons line up. */
  function Pad(p: nat): string {
    if p < 10 then " " else ""
  }

  /** The text of a percentile line up to its value. */
  function Label(p: nat): string {
    "Percentile " + Pad(p) + NatToS(p) + ": "
  }

  function TemplateLine(p: nat, placeholder: char): string {
    Label(p) + [placeholder] + " {unit}"
  }

  function NumericTemplateLines(): (r: seq<string>)
    ensures |r| == |RequestedPercentiles|
  {
    seq(|RequestedPercentiles|, i requires 0 <= i < |RequestedPercentiles| =>
      TemplateLine(RequestedPercentiles[i], Placeholders[i]))
  }

  /** The answer format of `NUMERIC_FORECAST_PROMPT`. */
  function NumericFormat(): string {
    Wrap("percentiles", FormatIntro("predictions"), BlockBody(NumericTemplateLines()), "\n")
  }

  /** The answer format of `MULTIPLE_CHOICE_FORECAST_PROMPT`. */
  function ChoiceFormat(): string {
    Wrap("probabilities", FormatIntro("predictions"),
      BlockBody(["Option \"A\": A%", "Option \"B\": B%", "...", "Option \"N\": N%"]), "\n")
  }

  /** The instructions appended for a question type; raises for a type without a template. */
  function Suffix(questionType: Option<string>, g: Guidance): (r: Result<string>)
    ensures r.Success? <==> questionType in {Some("binary"), Some("discrete"), Some("numeric"), Some("multiple_choice")}
    ensures r.Failure? ==> r.error == RuntimeError("Missing template for type: " + questionType.GetOr(""))
  {
    match questionType
    case Some("binary") => Success(g.binary + BinaryFormat())
    case Some("discrete") => Success(g.numeric + NumericFormat())
    case Some("numeric") => Success(g.numeric + NumericFormat())
    case Some("multiple_choice") => Success(g.multipleChoice + ChoiceFormat())
    case _ => Failure(RuntimeError("Missing template for type: " + questionType.GetOr("")))
  }

  /** `prompt_with_type`: the rendered template, then the type's instructions. */
  function PromptWithType(rendered: string, questionType: Option<string>, g: Guidance): (r: Result<string>)
    ensures r.Success? <==> Suffix(questionType, g).Success?
    ensures r.Success? ==> |rendered| <= |r.value| && r.value[..|rendered|] == rendered
  {
    var suffix :- Suffix(questionType, g);
    Success(rendered + suffix)
  }

  /** Discrete and numeric questions get the same prompt. */
  lemma {:induction false} DiscreteIsNumeric(rendered: string, g: Guidance)
    ensures PromptWithType(rendered, Some("discrete"), g) == PromptWithType(rendered, Some("numeric"), g)
  {
  }

  /** Each type's prompt ends with the answer format whose block its parser reads. */
  lemma {:induction false} PromptEndsWithFormat(rendered: string, g: Guidance)
    ensures PromptWithType(rendered, Some("binary"), g) == Success(rendered + g.binary + BinaryFormat())
    ensures PromptWithType(rendered, Some("numeric"), g) == Success(rendered + g.numeric + NumericFormat())
    ensures PromptWithType(rendered, Some("multiple_choice"), g)
              == Success(rendered + g.multipleChoice + ChoiceFormat())
  {
    BinaryPrompt(rendered, g);
    NumericPrompt(rendered, g);
    ChoicePrompt(rendered, g);
  }

  lemma {:induction false} BinaryPrompt(rendered: string, g: Guidance)
    ensures PromptWithType(rendered, Some("binary"), g) == Success(rendered + g.binary + BinaryFormat())
  {
    PromptAppends(rendered, g.binary, BinaryFormat());
  }

  lemma {:induction false} NumericPrompt(rendered: string, g: Guidance)
    ensures PromptWithType(rendered, Some("numeric"), g) == Success(rendered + g.numeric + NumericFormat())
  {
    PromptAppends(rendered, g.numeric, NumericFormat());
  }

  lemma {:induction false} ChoicePrompt(rendered: string, g: Guidance)
    ensures PromptWithType(rendered, Some("multiple_choice"), g)
              == Success(rendered + g.multipleChoice + ChoiceFormat())
  {
    PromptAppends(rendered, g.multipleChoice, ChoiceFormat());
  }

  lemma {:induction false} PromptAppends(rendered: string, guidance: string, format: string)
    ensures rendered + (guidance + format) == rendered + guidance + format
  {
  }

  // ---------------------------------------------------------------------------
  // the numeric format as grammar

  lemma {:induction false} RequestedIncreasing()
    ensures forall i, j :: 0 <= i < j < |RequestedPercentiles| ==> RequestedPercentiles[i] < RequestedPercentiles[j]
    ensures forall i :: 0 <= i < |RequestedPercentiles| ==> 0 < RequestedPercentiles[i] < 100
  {
  }

  /** A line of a sample block: one line, no tag, no blank at either end. */
  predicate SampleLine(t: string) {
    |t| > 0 && '<' !in t && '\n' !in t && !IsStripSpace(t[0]) && !IsStripSpace(t[|t| - 1])
  }

  /** The shape of a template line the block reading needs. */
  lemma {:induction false} TemplateLineShape(p: nat, placeholder: char)
    requires placeholder != '\n' && placeholder != '<'
    ensures SampleLine(TemplateLine(p, placeholder))
  {
    var digits := NatToS(p);
    assert '\n' !in digits && '<' !in digits by {
      forall i | 0 <= i < |digits| ensures digits[i] != '\n' && digits[i] != '<' {
        assert IsDigit(digits[i]);
      }
    }
    var t := TemplateLine(p, placeholder);
    assert t == "Percentile " + Pad(p) + digits + ": " + [placeholder] + " {unit}";
    assert t[0] == 'P' && t[|t| - 1] == '}';
  }

  /** The numeric format's block holds the template lines, one per line, in order. */
  lemma {:induction false} NumericFormatBlock()
    ensures ExtractXml("percentiles", NumericFormat()) == Some(Join(NumericTemplateLines(), "\n"))
    ensures Lines(Join(NumericTemplateLines(), "\n")) == NumericTemplateLines()
  {
    var lines := NumericTemplateLines();
    forall i | 0 <= i < |lines|
      ensures SampleLine(lines[i])
    {
      var p := RequestedPercentiles[i];
      var c := Placeholders[i];
      assert c != '\n' && c != '<';
      TemplateLineShape(p, c);
    }
    IntroAvoidsAngle();
    SampleBlock("percentiles", FormatIntro("predictions"), lines);
  }

  lemma {:induction false} IntroAvoidsAngle()
    ensures '<' !in FormatIntro("predictions") && '<' !in FormatIntro("prediction")
  {
  }

  /** The binary format's block is the single sample line `X%`. */
  lemma {:induction false} BinaryFormatBlock()
    ensures ExtractXml("probability", BinaryFormat()) == Some("X%")
  {
    var lines := ["X%"];
    assert SampleLine(lines[0]);
    IntroAvoidsAngle();
    SampleBlock("probability", FormatIntro("prediction"), lines);
  }

  /** The multiple-choice format's block holds its four sample lines, in order. */
  lemma {:induction false} ChoiceFormatBlock()
    ensures var lines := ["Option \"A\": A%", "Option \"B\": B%", "...", "Option \"N\": N%"];
            && ExtractXml("probabilities", ChoiceFormat()) == Some(Join(lines, "\n"))
            && Lines(Join(lines, "\n")) == lines
  {
    var lines := ["Option \"A\": A%", "Option \"B\": B%", "...", "Option \"N\": N%"];
    assert SampleLine(lines[0]) && SampleLine(lines[1]) && SampleLine(lines[2]) && SampleLine(lines[3]);
    IntroAvoidsAngle();
    SampleBlock("probabilities", FormatIntro("predictions"), lines);
  }

  /** A sample block of nonblank-ended lines reads back line by line. */
  lemma {:induction false} SampleBlock(tag: string, intro: string, lines: seq<string>)
    requires '<' !in intro && |lines| > 0
    requires forall i :: 0 <= i < |lines| ==> SampleLine(lines[i])
    ensures ExtractXml(tag, Wrap(tag, intro, BlockBody(lines), "\n")) == Some(Join(lines, "\n"))
    ensures Lines(Join(lines, "\n")) == lines
  {
    JoinUnpadded(lines, "\n");
    AngleFreeOpens(tag, intro);
    BlockOfWrap(tag, intro, lines, "\n");
  }

  /** The label of each template line reads back, through the percentile
      parser's key rule, as the percentile it asks for. */
  lemma {:induction false} TemplateLabelsRead(i: nat)
    requires i < |RequestedPercentiles|
    ensures var p := RequestedPercentiles[i];
            && NumericTemplateLines()[i][..|Label(p)|] == Label(p)
            && PercentileKey("Percentile " + Pad(p) + NatToS(p)) == p
  {
    var p := RequestedPercentiles[i];
    PercentileKeyOf(Pad(p), p);
  }

  /** An answer that fills the template: each requested percentile with
      its value and unit, labelled as the template labels it. */
  function RequestedEntries(values: seq<Literal>, unit: string): (r: seq<PercentileEntry>)
    requires |values| == |RequestedPercentiles|
    ensures |r| == |values|
    ensures forall i :: 0 <= i < |r| ==> PercentileText(r[i]) == Label(RequestedPercentiles[i]) + LiteralText(values[i]) + unit
  {
    seq(|values|, i requires 0 <= i < |values| =>
      PercentileEntry(RequestedPercentiles[i], Pad(RequestedPercentiles[i]), values[i], unit))
  }

  /** A numeric answer in the requested layout reads back as the eleven
      requested percentiles, in order, each with its value. */
  lemma {:induction false} RequestedAnswerReadsBack(pre: string, values: seq<Literal>, unit: string, post: string)
    requires OpensAfter("percentiles", pre)
    requires |values| == |RequestedPercentiles|
    requires forall i :: 0 <= i < |values| ==> WellFormed(values[i])
    requires '\n' !in unit && '<' !in unit
    requires |unit| > 0 ==> IsSpace(unit[0]) && !IsStripSpace(unit[|unit| - 1])
    ensures var entries := RequestedEntries(values, unit);
            var r := Percentiles(NumericAnswer(pre, entries, post));
            && r.Success?
            && |r.value| == |RequestedPercentiles|
            && forall i :: 0 <= i < |values| ==>
                 r.value[i] == (RequestedPercentiles[i] as int, LiteralNum(values[i]))
  {
    var entries := RequestedEntries(values, unit);
    RequestedEntriesGood(values, unit);
    PercentilesRoundTrip(pre, entries, post);
  }

  /** The entries of a filled-in template are well formed and name each
      requested percentile once. */
  lemma {:induction false} RequestedEntriesGood(values: seq<Literal>, unit: string)
    requires |values| == |RequestedPercentiles|
    requires forall i :: 0 <= i < |values| ==> WellFormed(values[i])
    requires '\n' !in unit && '<' !in unit
    requires |unit| > 0 ==> IsSpace(unit[0]) && !IsStripSpace(unit[|unit| - 1])
    ensures var entries := RequestedEntries(values, unit);
            && (forall i :: 0 <= i < |entries| ==> GoodEntry(entries[i]))
            && DistinctPercentiles(entries)
  {
    var entries := RequestedEntries(values, unit);
    forall i | 0 <= i < |entries| ensures GoodEntry(entries[i]) {
      assert AllSpace(Pad(RequestedPercentiles[i]));
    }
    RequestedIncreasing();
  }
}
