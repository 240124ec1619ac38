/** The text blocks `Metaculus::Question` renders into prompts: the
    metadata lines (bounds and units), the resolution criteria, and the
    community aggregate lines.

    The numbers a question carries reach the prompt only as text, so the
    model keeps them as the text Ruby would interpolate: each value field
    holds its rendering. Which lines appear, in which order, and which
    missing fields raise is what is modelled. */
module QuestionContent {
  import opened Wrappers
  import opened RubyString

  /** `<tag>value</tag>` */
  function Tagged(tag: string, value: string): string {
    "<" + tag + ">" + value + "</" + tag + ">"
  }

  /** A value of the `scaling` object; the bounds as Ruby prints them. */
  datatype Scaling = Scaling(
    rangeMin: Option<string>,
    rangeMax: Option<string>,
    openLowerBound: Option<bool>,
    openUpperBound: Option<bool>)

  /** A center or interval value in both forms the code can print: as a
      percentage (`format('%0.2f%%', x * 100)`) and scaled by the upper bound
      (`(x * upper_bound).round(2)`). */
  datatype Rendered = Rendered(percent: string, scaled: string)

  /** The latest recency-weighted aggregation. */
  datatype Aggregation = Aggregation(
    forecasterCount: Option<string>,
    mean: Option<string>,
    center: Option<Rendered>,
    intervalLower: Option<Rendered>,
    intervalUpper: Option<Rendered>)

  datatype Question = Question(
    questionType: Option<string>,
    unit: Option<string>,
    scaling: Option<Scaling>,
    resolutionCriteria: Option<string>,
    finePrint: Option<string>,
    latest: Option<Aggregation>)

  /** Ruby truthiness of an optional flag. */
  predicate Truthy(flag: Option<bool>) {
    flag == Some(true)
  }

  // ---------------------------------------------------------------------------
  // metadata_content

  datatype MetaLine = LowerBound(bound: string) | Units(units: string) | UpperBound(bound: string)

  function MetaRank(l: MetaLine): nat {
    match l
    case LowerBound(_) => 0
    case Units(_) => 1
    case UpperBound(_) => 2
  }

  function RenderMeta(l: MetaLine): string {
    match l
    case LowerBound(v) => Tagged("lower_bound", v)
    case Units(u) => Tagged("units", u)
    case UpperBound(v) => Tagged("upper_bound", v)
  }

  /** The line belongs in the metadata of a question with these fields: a
      closed bound that is present, a unit that is not empty. */
  predicate MetaLineDue(scaling: Scaling, unit: string, l: MetaLine) {
    match l
    case LowerBound(v) => scaling.rangeMin == Some(v) && !Truthy(scaling.openLowerBound)
    case Units(u) => u == unit && |u| > 0
    case UpperBound(v) => scaling.rangeMax == Some(v) && !Truthy(scaling.openUpperBound)
  }

  /** Lines strictly ordered by kind: lower bound, units, upper bound. */
  predicate RankOrdered(lines: seq<MetaLine>) {
    forall i, j :: 0 <= i < j < |lines| ==> MetaRank(lines[i]) < MetaRank(lines[j])
  }

  /** The metadata lines. A question without a `scaling` object raises at
      its first lookup, one without a unit at `units.empty?`. */
  function MetadataLines(q: Question): (r: Result<seq<MetaLine>>)
    ensures r.Success? <==> q.scaling.Some? && q.unit.Some?
    ensures r.Success? ==> RankOrdered(r.value)
    ensures r.Success? ==> forall l :: l in r.value <==> MetaLineDue(q.scaling.value, q.unit.value, l)
  {
    match q.scaling
    case None => Failure(NoMethodOnNil("[]"))
    case Some(s) =>
      match q.unit
      case None => Failure(NoMethodOnNil("empty?"))
      case Some(unit) =>
        var lower := if s.rangeMin.Some? && !Truthy(s.openLowerBound) then [LowerBound(s.rangeMin.value)] else [];
        var units := if |unit| > 0 then [Units(unit)] else [];
        var upper := if s.rangeMax.Some? && !Truthy(s.openUpperBound) then [UpperBound(s.rangeMax.value)] else [];
        Success(lower + units + upper)
  }

  function RenderMetaLines(lines: seq<MetaLine>): (r: seq<string>)
    ensures |r| == |lines|
    ensures forall i :: 0 <= i < |lines| ==> r[i] == RenderMeta(lines[i])
  {
    seq(|lines|, i requires 0 <= i < |lines| => RenderMeta(lines[i]))
  }

  /** `metadata_content`: the lines joined by newlines. */
  function MetadataContent(q: Question): (r: Result<string>)
    ensures r.Success? <==> q.scaling.Some? && q.unit.Some?
  {
    var lines :- MetadataLines(q);
    Success(Join(RenderMetaLines(lines), "\n"))
  }

  /** A join of parts whose first part is not empty is not empty. */
  lemma {:induction false} JoinNonEmpty(parts: seq<string>, sep: string)
    requires |parts| > 0 && |parts[0]| > 0
    ensures Join(parts, sep) != ""
  {
    JoinEnds(parts, sep);
  }

  /** The metadata is empty exactly when no line is due: both bounds open or
      absent and the unit empty. */
  lemma {:induction false} MetadataEmpty(q: Question)
    requires q.scaling.Some? && q.unit.Some?
    ensures MetadataContent(q).value == "" <==>
              (forall l :: !MetaLineDue(q.scaling.value, q.unit.value, l))
  {
    var lines := MetadataLines(q).value;
    if |lines| > 0 {
      assert lines[0] in lines;
      JoinNonEmpty(RenderMetaLines(lines), "\n");
    } else {
      forall l ensures !MetaLineDue(q.scaling.value, q.unit.value, l) {
        assert l !in lines;
      }
    }
  }

  // ---------------------------------------------------------------------------
  // criteria_content

  /** `[resolution_criteria, fine_print].compact.join("\n\n").strip` */
  function CriteriaContent(q: Question): (r: string)
    ensures Unpadded(r)
    ensures q.resolutionCriteria.None? && q.finePrint.None? ==> r == ""
  {
    var present := (if q.resolutionCriteria.Some? then [q.resolutionCriteria.value] else [])
                 + (if q.finePrint.Some? then [q.finePrint.value] else []);
    Strip(Join(present, "\n\n"))
  }

  /** Criteria and fine print that are already trimmed appear verbatim, a
      blank line between them. */
  lemma {:induction false} CriteriaOfTrimmed(q: Question, criteria: string, finePrint: string)
    requires q.resolutionCriteria == Some(criteria) && q.finePrint == Some(finePrint)
    requires |criteria| > 0 && !IsStripSpace(criteria[0])
    requires |finePrint| > 0 && !IsStripSpace(finePrint[|finePrint| - 1])
    ensures CriteriaContent(q) == criteria + "\n\n" + finePrint
  {
    var parts := [criteria, finePrint];
    assert Join(parts, "\n\n") == criteria + "\n\n" + finePrint;
    JoinUnpadded(parts, "\n\n");
    StripOfPadded("", criteria + "\n\n" + finePrint, "");
    assert "" + (criteria + "\n\n" + finePrint) + "" == criteria + "\n\n" + finePrint;
  }

  /** With only one of the two present, the criteria are that one, stripped. */
  lemma {:induction false} CriteriaOfOne(q: Question)
    requires q.resolutionCriteria.Some? != q.finePrint.Some?
    ensures q.resolutionCriteria.Some? ==> CriteriaContent(q) == Strip(q.resolutionCriteria.value)
    ensures q.finePrint.Some? ==> CriteriaContent(q) == Strip(q.finePrint.value)
  {
  }

  // ---------------------------------------------------------------------------
  // aggregate_content

  datatype AggLine =
    | ForecasterCount(count: string)
    | Mean(mean: string)
    | Median(median: string)
    | Lower25(value: string)
    | Upper75(value: string)

  function AggRank(l: AggLine): nat {
    match l
    case ForecasterCount(_) => 0
    case Mean(_) => 1
    case Median(_) => 2
    case Lower25(_) => 3
    case Upper75(_) => 4
  }

  function RenderAgg(l: AggLine): string {
    match l
    case ForecasterCount(v) => Tagged("forecaster-count", v)
    case Mean(v) => Tagged("mean", v)
    case Median(v) => Tagged("median", v)
    case Lower25(v) => Tagged("lower_25_percent", v)
    case Upper75(v) => Tagged("upper_75_percent", v)
  }

  predicate IsType(q: Question, name: string) {
    q.questionType == Some(name)
  }

  /** `upper_bound`, needed to scale a numeric question's values: `nil`
      scaling raises at the lookup, a `nil` bound at the multiplication. */
  function UpperBoundFor(q: Question): (r: Result<string>)
    ensures r.Success? <==> q.scaling.Some? && q.scaling.value.rangeMax.Some?
  {
    match q.scaling
    case None => Failure(NoMethodOnNil("[]"))
    case Some(s) =>
      match s.rangeMax
      case None => Failure(TypeError("nil can't be coerced into Float"))
      case Some(v) => Success(v)
  }

  /** `latest_median`: a percentage for binary questions, a scaled value
      for numeric ones, and nil (printed as nothing) for every other type. */
  function LatestMedian(q: Question, a: Aggregation): (r: Result<string>)
    ensures !IsType(q, "binary") && !IsType(q, "numeric") ==> r == Success("")
    ensures r.Failure? <==> ((IsType(q, "binary") || IsType(q, "numeric")) && a.center.None?)
                            || (IsType(q, "numeric") && UpperBoundFor(q).Failure?)
  {
    if IsType(q, "binary") then
      match a.center
      case None => Failure(NoMethodOnNil("first"))
      case Some(c) => Success(c.percent)
    else if IsType(q, "numeric") then
      match a.center
      case None => Failure(NoMethodOnNil("first"))
      case Some(c) =>
        var _ :- UpperBoundFor(q);
        Success(c.scaled)
    else Success("")
  }

  /** The line belongs in the aggregate block of this question. */
  predicate AggLineDue(q: Question, a: Aggregation, median: string, l: AggLine) {
    match l
    case ForecasterCount(v) => v == a.forecasterCount.GetOr("")
    case Mean(v) => a.mean == Some(v)
    case Median(v) => v == median
    case Lower25(v) => IsType(q, "numeric") && a.intervalLower.Some? && v == a.intervalLower.value.scaled
    case Upper75(v) => IsType(q, "numeric") && a.intervalUpper.Some? && v == a.intervalUpper.value.scaled
  }

  predicate AggOrdered(lines: seq<AggLine>) {
    forall i, j :: 0 <= i < j < |lines| ==> AggRank(lines[i]) < AggRank(lines[j])
  }

  /** The aggregate lines. A question without an aggregation raises at the
      first lookup; the median raises as `LatestMedian` does. */
  function AggregateLines(q: Question): (r: Result<seq<AggLine>>)
    ensures r.Success? <==> q.latest.Some? && LatestMedian(q, q.latest.value).Success?
    ensures r.Success? ==> AggOrdered(r.value)
    ensures r.Success? ==> forall l :: l in r.value <==>
              AggLineDue(q, q.latest.value, LatestMedian(q, q.latest.value).value, l)
    ensures r.Success? ==> |r.value| > 0 && r.value[0].ForecasterCount?
  {
    match q.latest
    case None => Failure(NoMethodOnNil("[]"))
    case Some(a) =>
      var median :- LatestMedian(q, a);
      Success(LinesOf(q, a, median))
  }

  /** The lines of an aggregation whose median has been rendered. */
  function LinesOf(q: Question, a: Aggregation, median: string): (lines: seq<AggLine>)
    ensures AggOrdered(lines)
    ensures forall l :: l in lines <==> AggLineDue(q, a, median, l)
    ensures |lines| > 0 && lines[0].ForecasterCount?
  {
    var numeric := IsType(q, "numeric");
    var mean := if a.mean.Some? then [Mean(a.mean.value)] else [];
    var lower := if numeric && a.intervalLower.Some? then [Lower25(a.intervalLower.value.scaled)] else [];
    var upper := if numeric && a.intervalUpper.Some? then [Upper75(a.intervalUpper.value.scaled)] else [];
    PiecesOrdered(ForecasterCount(a.forecasterCount.GetOr("")), mean, Median(median), lower, upper);
    [ForecasterCount(a.forecasterCount.GetOr(""))] + mean + [Median(median)] + lower + upper
  }

  /** Appending at most one line of a higher rank keeps the lines in rank order. */
  lemma {:induction false} ExtendOrdered(lines: seq<AggLine>, more: seq<AggLine>, k: nat)
    requires AggOrdered(lines)
    requires forall i :: 0 <= i < |lines| ==> AggRank(lines[i]) < k
    requires |more| <= 1 && (|more| == 1 ==> AggRank(more[0]) == k)
    ensures AggOrdered(lines + more)
    ensures forall i :: 0 <= i < |lines + more| ==> AggRank((lines + more)[i]) < k + 1
  {
    var all := lines + more;
    forall i | 0 <= i < |all| ensures AggRank(all[i]) < k + 1 {
      if i < |lines| {
        assert all[i] == lines[i];
      }
    }
    forall i, j | 0 <= i < j < |all| ensures AggRank(all[i]) < AggRank(all[j]) {
      assert all[i] == lines[i];
      if j < |lines| {
        assert all[j] == lines[j];
      }
    }
  }

  /** The five pieces, each of at most one line of its own kind, come out in rank order. */
  lemma {:induction false} PiecesOrdered(first: AggLine, mean: seq<AggLine>, median: AggLine, lower: seq<AggLine>, upper: seq<AggLine>)
    requires first.ForecasterCount? && median.Median?
    requires |mean| <= 1 && (|mean| == 1 ==> mean[0].Mean?)
    requires |lower| <= 1 && (|lower| == 1 ==> lower[0].Lower25?)
    requires |upper| <= 1 && (|upper| == 1 ==> upper[0].Upper75?)
    ensures AggOrdered([first] + mean + [median] + lower + upper)
  {
    ExtendOrdered([], [first], 0);
    assert [] + [first] == [first];
    ExtendOrdered([first], mean, 1);
    ExtendOrdered([first] + mean, [median], 2);
    ExtendOrdered([first] + mean + [median], lower, 3);
    ExtendOrdered([first] + mean + [median] + lower, upper, 4);
  }

  function RenderAggLines(lines: seq<AggLine>): (r: seq<string>)
    ensures |r| == |lines|
    ensures forall i :: 0 <= i < |lines| ==> r[i] == RenderAgg(lines[i])
  {
    seq(|lines|, i requires 0 <= i < |lines| => RenderAgg(lines[i]))
  }

  /** `aggregate_content`: the lines joined by newlines. */
  function AggregateContent(q: Question): (r: Result<string>)
    ensures r.Success? <==> q.latest.Some? && LatestMedian(q, q.latest.value).Success?
  {
    var lines :- AggregateLines(q);
    Success(Join(RenderAggLines(lines), "\n"))
  }

  /** The aggregate block opens with the forecaster count and holds exactly
      one median line; its mean line is there exactly when means are. */
  lemma {:induction false} AggregateShape(q: Question)
    requires AggregateLines(q).Success?
    ensures var lines := AggregateLines(q).value;
            && |lines| > 0 && lines[0].ForecasterCount?
            && (exists i :: 0 <= i < |lines| && lines[i].Median?)
            && (forall i, j :: 0 <= i < |lines| && 0 <= j < |lines| && lines[i].Median? && lines[j].Median? ==> i == j)
            && ((exists i :: 0 <= i < |lines| && lines[i].Mean?) <==> q.latest.value.mean.Some?)
  {
    var a := q.latest.value;
    var lines := AggregateLines(q).value;
    var median := LatestMedian(q, a).value;
    assert Median(median) in lines;
    if a.mean.Some? {
      assert Mean(a.mean.value) in lines;
    }
  }

  /** The non-binary, non-numeric types show an empty median. */
  lemma {:induction false} MedianEmptyForOtherTypes(q: Question)
    requires q.latest.Some? && !IsType(q, "binary") && !IsType(q, "numeric")
    ensures AggregateLines(q).Success?
    ensures Median("") in AggregateLines(q).value
    ensures Tagged("median", "") == "<median></median>"
  {
  }

  /** The interval lines appear only for numeric questions. */
  lemma {:induction false} IntervalsOnlyForNumeric(q: Question)
    requires AggregateLines(q).Success? && !IsType(q, "numeric")
    ensures forall l :: l in AggregateLines(q).value ==> !l.Lower25? && !l.Upper75?
  {
  }
}
