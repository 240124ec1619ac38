/** Reading a forecaster's answer out of its reply (`ResponseHelpers`).

    The reply text holds one tagged block: `<probability>` for a binary
    question, `<percentiles>` for a numeric or discrete one, and
    `<probabilities>` for a multiple-choice one. Each parser extracts its
    block, cuts it into lines and reads every line; a line that does not
    have the expected shape makes Ruby call a method on nil, which the model
    reports as a `Failure`.

    As written, the helpers hand the reply and the tag to `extract_xml` and
    `strip_xml` in the wrong order. The `...AsWritten` members model that
    code; the plain members model the evidently intended one, which the rest
    of the model uses. */
module AnswerParser {
  import opened Wrappers
  import opened RubyString
  import opened RubyNumber
  import opened TaggedBlock
  import opened OrderedMap

  /** What `value.include?('.') ? value.to_f : value.to_i` yields. */
  datatype Num = Int(i: int) | Float(r: real)

  function ReadNum(token: string): (n: Num)
    ensures n.Float? <==> '.' in token
  {
    if '.' in token then Float(ToF(token)) else Int(ToI(token))
  }

  /** `value.include?('%') ? value.to_f / 100.0 : value.to_f`: a value
      written with a percent sign is a percentage, any other a plain number. */
  function ReadPercent(value: string): (r: real)
    ensures '%' in value ==> r * 100.0 == ToF(value)
    ensures '%' !in value ==> r == ToF(value)
  {
    if '%' in value then ToF(value) / 100.0 else ToF(value)
  }

  /** `to_i` stops at a thousands separator: `"1,234"` reads as 1. */
  lemma {:induction false} ReadNumStopsAtComma(n: int, digits: string)
    requires AllDigits(digits)
    ensures ReadNum(ToS(n) + "," + digits) == Int(n)
  {
    var t := ToS(n) + "," + digits;
    ToSDigits(n);
    assert '.' !in t by {
      forall i | 0 <= i < |t| ensures t[i] != '.' {
        if i > |ToS(n)| {
          assert t[i] == digits[i - |ToS(n)| - 1];
        }
      }
    }
    assert t == ToS(n) + ("," + digits);
    ToIOfToSThen(n, "," + digits);
  }

  // ---------------------------------------------------------------------------
  // one line

  /** A line of the percentiles block: `key: value`, the key's text after
      `Percentile ` read with `to_i`, the value's first word read as a number.
      It fails exactly when the line has no `: ` or nothing but blanks after
      the first one. */
  function PercentileLine(line: string): (r: Result<(int, Num)>)
    ensures r.Failure? <==> match FindFrom(line, ": ", 0)
                            case None => true
                            case Some(i) => AllSpace(line[i + 2..])
  {
    var parts := Split2(line, ": ");
    if |parts| < 2 then
      // `key` is nil for an empty line; otherwise `value` is nil
      Failure(NoMethodOnNil("split"))
    else
      assert line[|parts[0]| + 2..] == parts[1];
      var value :- PercentileValue(parts[1]);
      Success((PercentileKey(parts[0]), value))
  }

  /** `key.split('Percentile ', 2).last.to_i`, where `nil.to_i` is 0. */
  function PercentileKey(key: string): int {
    match Last(Split2(key, "Percentile "))
    case None => 0
    case Some(k) => ToI(k)
  }

  /** The key is the text after the first `Percentile `, or the whole key
      when there is none, read as an integer; an empty key reads as 0. */
  lemma {:induction false} PercentileKeyReads(key: string)
    ensures PercentileKey(key) == ToI(AfterFirst(key, "Percentile "))
    ensures key == [] ==> PercentileKey(key) == 0
  {
    var k := AfterFirst(key, "Percentile ");
    if key == [] {
      assert SkipSpace(key) == key;
    }
  }

  /** The first word of the value read as a number; nil when the value is blank. */
  function PercentileValue(value: string): (r: Result<Num>)
    ensures r.Failure? <==> AllSpace(value)
  {
    match AwkFirst(value)
    case None => Failure(NoMethodOnNil("include?"))
    case Some(token) => Success(ReadNum(token))
  }

  /** A line of the probabilities block: the text after `Option "`, cut at
      `": ` into the option name and its percentage. The name never holds `": `. */
  function ProbabilityLine(line: string): (r: Result<(string, real)>)
    ensures line == [] ==> r.Failure?
    ensures line != [] ==> r == ProbabilityPair(AfterFirst(line, "Option \""))
    ensures r.Success? ==> !Contains(r.value.0, "\": ")
  {
    match Last(Split2(line, "Option \""))
    case None => Failure(NoMethodOnNil("split"))
    case Some(pair) => ProbabilityPair(pair)
  }

  /** `key, value = pair.split('": ', 2)` and the value read as a percentage. */
  function ProbabilityPair(pair: string): (r: Result<(string, real)>)
    ensures r.Failure? <==> !Contains(pair, "\": ")
    ensures r.Success? ==> !Contains(r.value.0, "\": ")
  {
    var kv := Split2(pair, "\": ");
    if |kv| < 2 then
      assert !Contains(pair, "\": ");
      Failure(NoMethodOnNil("include?"))
    else
      Split2HeadClean(pair, "\": ");
      Success((kv[0], ReadPercent(kv[1])))
  }

  // ---------------------------------------------------------------------------
  // whole blocks

  /** Reading every line in order; the first line that fails aborts the read. */
  function ParseAll<T>(lines: seq<string>, parse: string -> Result<T>): (r: Result<seq<T>>)
    ensures r.Success? <==> forall i :: 0 <= i < |lines| ==> parse(lines[i]).Success?
    ensures r.Success? ==> |r.value| == |lines|
                           && forall i :: 0 <= i < |lines| ==> r.value[i] == parse(lines[i]).value
    ensures r.Failure? ==> exists i :: 0 <= i < |lines| && parse(lines[i]) == Failure(r.error)
                                       && forall j :: 0 <= j < i ==> parse(lines[j]).Success?
  {
    if |lines| == 0 then Success([])
    else
      match parse(lines[0])
      case Failure(e) => Failure(e)
      case Success(x) =>
        match ParseAll(lines[1..], parse)
        case Failure(e) =>
          ghost var i :| 0 <= i < |lines[1..]| && parse(lines[1..][i]) == Failure(e)
                         && forall j :: 0 <= j < i ==> parse(lines[1..][j]).Success?;
          assert parse(lines[i + 1]) == Failure(e);
          assert forall j :: 0 <= j < i + 1 ==> parse(lines[j]).Success? by {
            forall j | 0 <= j < i + 1 ensures parse(lines[j]).Success? {
              if j > 0 {
                assert lines[j] == lines[1..][j - 1];
              }
            }
          }
          Failure(e)
        case Success(xs) =>
          assert forall i :: 0 < i < |lines| ==> lines[i] == lines[1..][i - 1];
          Success([x] + xs)
  }

  /** Lines that each read successfully read, together, as their values in order. */
  lemma {:induction false} ParseAllOf<T>(lines: seq<string>, parse: string -> Result<T>, xs: seq<T>)
    requires |xs| == |lines|
    requires forall i :: 0 <= i < |lines| ==> parse(lines[i]) == Success(xs[i])
    ensures ParseAll(lines, parse) == Success(xs)
  {
    var r := ParseAll(lines, parse);
    assert r.Success?;
    assert r.value == xs;
  }

  /** The block's text by tag: `extracted_content(tag)` as intended. */
  function ExtractedContent(content: string, tag: string): (r: Option<string>)
    ensures r.Some? <==> HasBlock(tag, content)
  {
    ExtractXml(tag, content)
  }

  /** `extracted_content(tag)` as written: the reply used as the tag and the tag as the text. */
  function ExtractedContentAsWritten(content: string, tag: string): Option<string> {
    ExtractXml(content, tag)
  }

  /** `stripped_content(tag)` as intended: the reply without its blocks for `tag`. */
  function StrippedContent(content: string, tag: string): (r: string)
    ensures |r| <= |content|
    ensures !HasBlock(tag, content) <==> r == content
  {
    StripXml(tag, content)
  }

  /** `stripped_content(tag)` as written. */
  function StrippedContentAsWritten(content: string, tag: string): string {
    StripXml(content, tag)
  }

  /** The percentiles hash read from an extracted block (nil when there was none). */
  function PercentilesOf(block: Option<string>): (r: Result<OMap<int, Num>>)
    ensures block.None? ==> r == Failure(NoMethodOnNil("split"))
    ensures r.Success? ==> Valid(r.value)
    ensures block.Some? ==> (r.Success? <==> ParseAll(Lines(block.value), PercentileLine).Success?)
  {
    match block
    case None => Failure(NoMethodOnNil("split"))
    case Some(text) =>
      var pairs :- ParseAll(Lines(text), PercentileLine);
      Success(PutAll([], pairs))
  }

  /** The probabilities hash read from an extracted block. */
  function ProbabilitiesOf(block: Option<string>): (r: Result<OMap<string, real>>)
    ensures block.None? ==> r == Failure(NoMethodOnNil("split"))
    ensures r.Success? ==> Valid(r.value)
    ensures block.Some? ==> (r.Success? <==> ParseAll(Lines(block.value), ProbabilityLine).Success?)
  {
    match block
    case None => Failure(NoMethodOnNil("split"))
    case Some(text) =>
      var pairs :- ParseAll(Lines(text), ProbabilityLine);
      Success(PutAll([], pairs))
  }

  /** The probability read from an extracted block. */
  function ProbabilityOf(block: Option<string>): (r: Result<real>)
    ensures r.Failure? <==> block.None?
  {
    match block
    case None => Failure(NoMethodOnNil("include?"))
    case Some(text) => Success(ReadPercent(text))
  }

  function Percentiles(content: string): (r: Result<OMap<int, Num>>)
    ensures r.Success? ==> HasBlock("percentiles", content) && Valid(r.value)
  {
    PercentilesOf(ExtractedContent(content, "percentiles"))
  }

  function Probabilities(content: string): (r: Result<OMap<string, real>>)
    ensures r.Success? ==> HasBlock("probabilities", content) && Valid(r.value)
  {
    ProbabilitiesOf(ExtractedContent(content, "probabilities"))
  }

  function Probability(content: string): (r: Result<real>)
    ensures r.Success? <==> HasBlock("probability", content)
  {
    ProbabilityOf(ExtractedContent(content, "probability"))
  }

  function PercentilesAsWritten(content: string): Result<OMap<int, Num>> {
    PercentilesOf(ExtractedContentAsWritten(content, "percentiles"))
  }

  function ProbabilitiesAsWritten(content: string): Result<OMap<string, real>> {
    ProbabilitiesOf(ExtractedContentAsWritten(content, "probabilities"))
  }

  function ProbabilityAsWritten(content: string): Result<real> {
    ProbabilityOf(ExtractedContentAsWritten(content, "probability"))
  }

  /** As written, no reply yields an answer: the tag names hold no `<`, so
      the swapped search never finds a block, and stripping returns the tag name. */
  lemma {:induction false} AsWrittenNeverReads(content: string)
    ensures PercentilesAsWritten(content) == Failure(NoMethodOnNil("split"))
    ensures ProbabilitiesAsWritten(content) == Failure(NoMethodOnNil("split"))
    ensures ProbabilityAsWritten(content) == Failure(NoMethodOnNil("include?"))
  {
    NoBlockWithoutAngle(content, "percentiles");
    NoBlockWithoutAngle(content, "probabilities");
    NoBlockWithoutAngle(content, "probability");
  }

  /** As written, stripping returns the tag itself for any tag free of `<`. */
  lemma {:induction false} StrippedAsWrittenIsTag(content: string, tag: string)
    requires '<' !in tag
    ensures StrippedContentAsWritten(content, tag) == tag
  {
    NoBlockWithoutAngle(content, tag);
  }

  // ---------------------------------------------------------------------------
  // answers written in the requested formats

  /** A number as an answer writes it: an integer, or a decimal with a
      non-empty fraction. */
  datatype Literal = IntLit(n: int) | DecLit(negative: bool, whole: nat, frac: string)

  predicate WellFormed(l: Literal) {
    l.DecLit? ==> |l.frac| > 0 && AllDigits(l.frac)
  }

  function LiteralText(l: Literal): string {
    match l
    case IntLit(n) => ToS(n)
    case DecLit(neg, w, f) => (if neg then "-" else "") + NatToS(w) + "." + f
  }

  /** The exact value a literal denotes. */
  function LiteralValue(l: Literal): real
    requires WellFormed(l)
  {
    match l
    case IntLit(n) => n as real
    case DecLit(neg, w, f) =>
      var m := DecimalValue(w, f);
      if neg then -m else m
  }

  /** The value of the decimal `w.f`. */
  function DecimalValue(w: nat, f: string): real
    requires AllDigits(f)
  {
    w as real + DigitsValue(f) as real / Pow10(|f|) as real
  }

  /** The number the percentile parser should produce for a literal. */
  function LiteralNum(l: Literal): Num
    requires WellFormed(l)
  {
    if l.IntLit? then Int(l.n) else Float(LiteralValue(l))
  }

  lemma {:induction false} LiteralTextShape(l: Literal)
    requires WellFormed(l)
    ensures |LiteralText(l)| > 0
    ensures forall i :: 0 <= i < |LiteralText(l)| ==> !IsSpace(LiteralText(l)[i])
    ensures forall i :: 0 <= i < |LiteralText(l)| ==> LiteralText(l)[i] !in "\n<:\"%"
    ensures IsDigit(LiteralText(l)[|LiteralText(l)| - 1])
    ensures '.' in LiteralText(l) <==> l.DecLit?
  {
    var t := LiteralText(l);
    match l
    case IntLit(n) =>
      var w := NatToS(if n < 0 then -n else n);
      assert forall i :: 0 <= i < |t| ==> t[i] == '-' || IsDigit(t[i]) by {
        if n < 0 {
          assert forall i :: 1 <= i < |t| ==> t[i] == w[i - 1];
        }
      }
    case DecLit(neg, w, f) =>
      var sign := if neg then "-" else "";
      var d := NatToS(w);
      assert t == sign + d + "." + f;
      assert forall i :: 0 <= i < |t| ==> t[i] == '-' || t[i] == '.' || IsDigit(t[i]) by {
        forall i | 0 <= i < |t| ensures t[i] == '-' || t[i] == '.' || IsDigit(t[i]) {
          if i < |sign| {
          } else if i < |sign| + |d| {
            assert t[i] == d[i - |sign|];
          } else if i == |sign| + |d| {
          } else {
            assert t[i] == f[i - |sign| - |d| - 1];
          }
        }
      }
      assert t[|sign| + |d|] == '.';
      assert t[|t| - 1] == f[|f| - 1];
  }

  /** `to_f` reads a literal exactly, up to a character that cannot continue it. */
  lemma {:induction false} ToFOfLiteral(l: Literal, rest: string)
    requires WellFormed(l)
    requires |rest| > 0 ==> !IsDigit(rest[0]) && rest[0] !in "_.eE"
    ensures ToF(LiteralText(l) + rest) == LiteralValue(l)
  {
    match l
    case IntLit(n) =>
      ToFOfToS(n, rest);
    case DecLit(neg, w, f) =>
      ToFOfDecimal(neg, w, f, rest);
  }

  lemma {:induction false} ToFOfDecimal(neg: bool, w: nat, f: string, rest: string)
    requires |f| > 0 && AllDigits(f)
    requires |rest| > 0 ==> !IsDigit(rest[0]) && rest[0] !in "_.eE"
    ensures ToF(LiteralText(DecLit(neg, w, f)) + rest) == LiteralValue(DecLit(neg, w, f))
  {
    var u := NatToS(w) + "." + f + rest;
    var s := (if neg then "-" else "") + u;
    assert LiteralText(DecLit(neg, w, f)) + rest == s;
    ToFOfSigned(neg, u);
    DecimalMagnitude(w, f, rest);
  }

  /** `to_f` of an optionally negated magnitude that starts with a digit. */
  lemma {:induction false} ToFOfSigned(neg: bool, u: string)
    requires |u| > 0 && IsDigit(u[0])
    ensures ToF((if neg then "-" else "") + u) == if neg then -UnsignedToF(u) else UnsignedToF(u)
  {
    var s := (if neg then "-" else "") + u;
    ToFUnpadded(s);
    SignedToFOf(neg, u);
  }

  /** `to_f` reads the magnitude of a decimal literal as its value. */
  lemma {:induction false} DecimalMagnitude(w: nat, f: string, rest: string)
    requires |f| > 0 && AllDigits(f)
    requires |rest| > 0 ==> !IsDigit(rest[0]) && rest[0] !in "_.eE"
    ensures UnsignedToF(NatToS(w) + "." + f + rest) == DecimalValue(w, f)
  {
    var d := NatToS(w);
    UnsignedToFOfDecimal(d, f, rest);
    DigitsValueOfNatToS(w);
  }

  /** The percentile parser reads a literal back as the number it denotes. */
  lemma {:induction false} ReadNumOfLiteral(l: Literal)
    requires WellFormed(l)
    ensures ReadNum(LiteralText(l)) == LiteralNum(l)
  {
    LiteralTextShape(l);
    if l.IntLit? {
      ToIOfToS(l.n);
    } else {
      ToFOfLiteral(l, "");
      assert LiteralText(l) + "" == LiteralText(l);
    }
  }

  /** One line of a numeric answer: `Percentile`, blanks, the percentile,
      `: `, the value, and an optional unit after a blank. */
  datatype PercentileEntry = PercentileEntry(percentile: nat, pad: string, value: Literal, unit: string)

  predicate GoodEntry(e: PercentileEntry) {
    && AllSpace(e.pad) && '\n' !in e.pad
    && WellFormed(e.value)
    && '\n' !in e.unit && '<' !in e.unit
    && (|e.unit| > 0 ==> IsSpace(e.unit[0]) && !IsStripSpace(e.unit[|e.unit| - 1]))
  }

  function PercentileText(e: PercentileEntry): string {
    "Percentile " + e.pad + NatToS(e.percentile) + ": " + LiteralText(e.value) + e.unit
  }

  /** The key text before `: ` reads back as the percentile. */
  lemma {:induction false} PercentileKeyOf(pad: string, p: nat)
    requires AllSpace(pad)
    ensures ':' !in "Percentile " + pad + NatToS(p)
    ensures PercentileKey("Percentile " + pad + NatToS(p)) == p
  {
    var digits := NatToS(p);
    var key := "Percentile " + pad + digits;
    assert ':' !in digits by {
      forall i | 0 <= i < |digits| ensures digits[i] != ':' {
        assert IsDigit(digits[i]);
      }
    }
    assert ':' !in pad by {
      forall i | 0 <= i < |pad| ensures pad[i] != ':' {
        assert IsSpace(pad[i]);
      }
    }
    KeyAfterLabel(pad + digits);
    assert key == "Percentile " + (pad + digits);
    ToISkipsSpace(pad, digits);
    assert ToS(p) == digits;
    ToIOfToS(p);
    assert ToI(pad + digits) == p;
    LabelHasNoColon();
  }

  lemma {:induction false} LabelHasNoColon()
    ensures ':' !in "Percentile "
  {
  }

  lemma {:induction false} KeyAfterLabel(rest: string)
    ensures Last(Split2("Percentile " + rest, "Percentile ")) == Some(rest)
  {
    assert "Percentile " + rest == [] + "Percentile " + rest;
    Split2At([], "Percentile ", rest);
  }

  /** The value text after `: ` reads back as the literal's number. */
  lemma {:induction false} PercentileValueOf(l: Literal, unit: string)
    requires WellFormed(l)
    requires |unit| > 0 ==> IsSpace(unit[0])
    ensures PercentileValue(LiteralText(l) + unit) == Success(LiteralNum(l))
  {
    LiteralTextShape(l);
    assert LiteralText(l) + unit == [] + LiteralText(l) + unit;
    AwkFirstOf([], LiteralText(l), unit);
    ReadNumOfLiteral(l);
  }

  lemma {:induction false} PercentileLineOf(e: PercentileEntry)
    requires GoodEntry(e)
    ensures PercentileLine(PercentileText(e)) == Success((e.percentile as int, LiteralNum(e.value)))
  {
    var key := "Percentile " + e.pad + NatToS(e.percentile);
    var value := LiteralText(e.value) + e.unit;
    assert PercentileText(e) == key + ": " + value;
    PercentileKeyOf(e.pad, e.percentile);
    Split2At(key, ": ", value);
    PercentileValueOf(e.value, e.unit);
  }

  /** The shape of a written percentile line that the block round trip needs. */
  lemma {:induction false} PercentileTextShape(e: PercentileEntry)
    requires GoodEntry(e)
    ensures var t := PercentileText(e);
            && '\n' !in t && '<' !in t
            && |t| > 0 && !IsStripSpace(t[0]) && !IsStripSpace(t[|t| - 1])
  {
    var digits := NatToS(e.percentile);
    var lit := LiteralText(e.value);
    LiteralTextShape(e.value);
    assert '\n' !in digits && '<' !in digits by {
      forall i | 0 <= i < |digits| ensures digits[i] != '\n' && digits[i] != '<' {
        assert IsDigit(digits[i]);
      }
    }
    assert '\n' !in e.pad && '<' !in e.pad by {
      forall i | 0 <= i < |e.pad| ensures e.pad[i] != '<' {
        assert IsSpace(e.pad[i]);
      }
    }
    var t := PercentileText(e);
    assert t == "Percentile " + e.pad + digits + ": " + lit + e.unit;
    if |e.unit| == 0 {
      assert t[|t| - 1] == lit[|lit| - 1];
    } else {
      assert t[|t| - 1] == e.unit[|e.unit| - 1];
    }
  }

  /** The lines of a numeric answer's block. */
  function PercentileLines(entries: seq<PercentileEntry>): (r: seq<string>)
    ensures |r| == |entries|
    ensures forall i :: 0 <= i < |entries| ==> r[i] == PercentileText(entries[i])
  {
    if |entries| == 0 then [] else [PercentileText(entries[0])] + PercentileLines(entries[1..])
  }

  /** A numeric answer as the prompt asks for it: prose, then the
      `<percentiles>` block with one line per entry on lines of its own. */
  function NumericAnswer(pre: string, entries: seq<PercentileEntry>, post: string): string {
    Wrap("percentiles", pre, BlockBody(PercentileLines(entries)), post)
  }

  predicate DistinctPercentiles(entries: seq<PercentileEntry>) {
    forall i, j :: 0 <= i < j < |entries| ==> entries[i].percentile != entries[j].percentile
  }

  /** What reading a numeric answer should give: each percentile with its value, in order. */
  function ExpectedPercentiles(entries: seq<PercentileEntry>): (r: OMap<int, Num>)
    requires forall i :: 0 <= i < |entries| ==> GoodEntry(entries[i])
    ensures |r| == |entries|
    ensures forall i :: 0 <= i < |entries| ==> r[i] == ExpectedEntry(entries[i])
  {
    if |entries| == 0 then [] else [ExpectedEntry(entries[0])] + ExpectedPercentiles(entries[1..])
  }

  /** An entry's percentile with the number its value denotes. */
  function ExpectedEntry(e: PercentileEntry): (int, Num)
    requires GoodEntry(e)
  {
    (e.percentile as int, LiteralNum(e.value))
  }

  /** A block's body as the prompts lay it out: each line on a line of its own. */
  function BlockBody(lines: seq<string>): string {
    "\n" + Join(lines, "\n") + "\n"
  }

  lemma {:induction false} BodyAvoidsAngle(lines: seq<string>)
    requires forall i :: 0 <= i < |lines| ==> '<' !in lines[i]
    ensures '<' !in BlockBody(lines)
  {
    JoinAvoids(lines, "\n", '<');
  }

  lemma {:induction false} StripBody(lines: seq<string>)
    requires Unpadded(Join(lines, "\n"))
    ensures Strip(BlockBody(lines)) == Join(lines, "\n")
  {
    assert AllStripSpace("\n");
    StripOfPadded("\n", Join(lines, "\n"), "\n");
  }

  /** The lines of a block are recovered from a reply exactly, when the
      prose before it holds no `<tag>`, the lines hold no `<` and they are
      unpadded at the ends of the block. */
  lemma {:induction false} BlockOfWrap(tag: string, pre: string, lines: seq<string>, post: string)
    requires OpensAfter(tag, pre)
    requires forall i :: 0 <= i < |lines| ==> '<' !in lines[i] && '\n' !in lines[i]
    requires Unpadded(Join(lines, "\n"))
    requires |lines| > 0 ==> lines[|lines| - 1] != []
    ensures ExtractXml(tag, Wrap(tag, pre, BlockBody(lines), post)) == Some(Join(lines, "\n"))
    ensures Lines(Join(lines, "\n")) == lines
  {
    BodyAvoidsAngle(lines);
    AngleFreeCloses(tag, BlockBody(lines));
    ExtractOfWrap(tag, pre, BlockBody(lines), post);
    StripBody(lines);
    LinesOfJoin(lines);
  }

  /** A numeric answer written in the requested format reads back as its
      percentiles and values, in order. */
  lemma {:induction false} PercentilesRoundTrip(pre: string, entries: seq<PercentileEntry>, post: string)
    requires OpensAfter("percentiles", pre)
    requires forall i :: 0 <= i < |entries| ==> GoodEntry(entries[i])
    requires DistinctPercentiles(entries)
    ensures Percentiles(NumericAnswer(pre, entries, post)) == Success(ExpectedPercentiles(entries))
  {
    var lines := PercentileLines(entries);
    var pairs := ExpectedPercentiles(entries);
    PercentileLinesShape(entries);
    BlockOfWrap("percentiles", pre, lines, post);
    PercentileLinesParse(entries);
    assert Valid(pairs);
    PutAllFresh([], pairs);
    assert [] + pairs == pairs;
    PercentilesOfBlock(Join(lines, "\n"), pairs);
  }

  /** The written percentile lines fit in a block and come back out of it whole. */
  lemma {:induction false} PercentileLinesShape(entries: seq<PercentileEntry>)
    requires forall i :: 0 <= i < |entries| ==> GoodEntry(entries[i])
    ensures var lines := PercentileLines(entries);
            && (forall i :: 0 <= i < |lines| ==> '<' !in lines[i] && '\n' !in lines[i])
            && Unpadded(Join(lines, "\n"))
            && (|lines| > 0 ==> lines[|lines| - 1] != [])
  {
    var lines := PercentileLines(entries);
    forall i | 0 <= i < |lines|
      ensures '<' !in lines[i] && '\n' !in lines[i] && |lines[i]| > 0
      ensures !IsStripSpace(lines[i][0]) && !IsStripSpace(lines[i][|lines[i]| - 1])
    {
      PercentileTextShape(entries[i]);
    }
    if |lines| > 0 {
      JoinUnpadded(lines, "\n");
    }
  }

  /** Each written percentile line parses to its expected pair. */
  lemma {:induction false} PercentileLinesParse(entries: seq<PercentileEntry>)
    requires forall i :: 0 <= i < |entries| ==> GoodEntry(entries[i])
    ensures ParseAll(PercentileLines(entries), PercentileLine) == Success(ExpectedPercentiles(entries))
  {
    var lines := PercentileLines(entries);
    var pairs := ExpectedPercentiles(entries);
    forall i | 0 <= i < |lines|
      ensures PercentileLine(lines[i]) == Success(pairs[i])
    {
      PercentileLineOf(entries[i]);
    }
    ParseAllOf(lines, PercentileLine, pairs);
  }

  lemma {:induction false} PercentilesOfBlock(text: string, pairs: seq<(int, Num)>)
    requires ParseAll(Lines(text), PercentileLine) == Success(pairs)
    ensures PercentilesOf(Some(text)) == Success(PutAll([], pairs))
  {
  }

  /** A block whose lines all read gives the table in which each key holds
      the value of its last line, the keys in the order they first appear. */
  lemma {:induction false} PercentilesOfReads(text: string)
    requires ParseAll(Lines(text), PercentileLine).Success?
    ensures var pairs := ParseAll(Lines(text), PercentileLine).value;
            var r := PercentilesOf(Some(text));
            && r.Success?
            && Keys(r.value) == FirstSeen(Keys(pairs))
            && forall k :: Get(r.value, k) == LastValue(pairs, k)
  {
    var pairs := ParseAll(Lines(text), PercentileLine).value;
    var empty: OMap<int, Num> := [];
    PutAllKeys(empty, pairs);
    assert Keys(empty) + Keys(pairs) == Keys(pairs);
    forall k ensures Get(PutAll(empty, pairs), k) == LastValue(pairs, k) {
      PutAllGet(empty, pairs, k);
    }
  }

  /** A repeated percentile is overwritten: the last line for a key decides
      its value, whatever earlier lines for the same key said. */
  lemma {:induction false} PercentileLastLineWins(text: string, i: nat)
    requires ParseAll(Lines(text), PercentileLine).Success?
    requires i < |Lines(text)|
    requires forall j :: i < j < |Lines(text)| ==>
               PercentileLine(Lines(text)[j]).value.0 != PercentileLine(Lines(text)[i]).value.0
    ensures PercentilesOf(Some(text)).Success?
    ensures Get(PercentilesOf(Some(text)).value, PercentileLine(Lines(text)[i]).value.0)
              == Some(PercentileLine(Lines(text)[i]).value.1)
  {
    var pairs := ParseAll(Lines(text), PercentileLine).value;
    forall j | i < j < |pairs| ensures pairs[j].0 != pairs[i].0 {
    }
    PercentilesOfReads(text);
    LastValueAt(pairs, i);
  }

  /** One line of a multiple-choice answer: `Option "name": value%`. */
  datatype OptionEntry = OptionEntry(name: string, value: Literal)

  predicate GoodOption(e: OptionEntry) {
    '"' !in e.name && '\n' !in e.name && '<' !in e.name && WellFormed(e.value)
  }

  function OptionText(e: OptionEntry): string {
    "Option \"" + e.name + "\": " + LiteralText(e.value) + "%"
  }

  lemma {:induction false} OptionLabelAfter(rest: string)
    ensures Last(Split2("Option \"" + rest, "Option \"")) == Some(rest)
  {
    assert "Option \"" + rest == [] + "Option \"" + rest;
    Split2At([], "Option \"", rest);
  }

  lemma {:induction false} PercentOfLiteral(l: Literal)
    requires WellFormed(l)
    ensures ReadPercent(LiteralText(l) + "%") == ExpectedProbability(l)
  {
    var t := LiteralText(l) + "%";
    PercentEndsNumber();
    ToFOfLiteral(l, "%");
    assert t[|t| - 1] == '%';
    PercentOf(t, LiteralValue(l));
  }

  lemma {:induction false} PercentEndsNumber()
    ensures !IsDigit("%"[0]) && "%"[0] !in "_.eE"
  {
  }

  /** A value with a `%` in it is read as a fraction of 100. */
  lemma {:induction false} PercentOf(t: string, v: real)
    requires '%' in t && ToF(t) == v
    ensures ReadPercent(t) == v / 100.0
  {
  }

  lemma {:induction false} PairOf(name: string, value: string)
    requires '"' !in name
    ensures ProbabilityPair(name + "\": " + value) == Success((name, ReadPercent(value)))
  {
    Split2At(name, "\": ", value);
  }

  lemma {:induction false} ProbabilityLineOf(e: OptionEntry)
    requires GoodOption(e)
    ensures ProbabilityLine(OptionText(e)) == Success(ExpectedOption(e))
  {
    OptionLineReads(e);
    PercentOfLiteral(e.value);
    var r := ProbabilityLine(OptionText(e));
    var expected := ExpectedOption(e);
    assert r.value.0 == expected.0;
    assert r.value.1 == expected.1;
  }

  /** An option line reads as its name and the percentage text after it. */
  lemma {:induction false} OptionLineReads(e: OptionEntry)
    requires GoodOption(e)
    ensures ProbabilityLine(OptionText(e)) == Success((e.name, ReadPercent(LiteralText(e.value) + "%")))
  {
    var value := LiteralText(e.value) + "%";
    assert OptionText(e) == "Option \"" + (e.name + "\": " + value);
    OptionLineOf(e.name, value);
  }

  /** A line `Option "name": value` reads as the name and the value as a percentage. */
  lemma {:induction false} OptionLineOf(name: string, value: string)
    requires '"' !in name
    ensures ProbabilityLine("Option \"" + (name + "\": " + value)) == Success((name, ReadPercent(value)))
  {
    var pair := name + "\": " + value;
    OptionLabelAfter(pair);
    PairOf(name, value);
  }

  lemma {:induction false} OptionTextShape(e: OptionEntry)
    requires GoodOption(e)
    ensures var t := OptionText(e);
            && '\n' !in t && '<' !in t
            && |t| > 0 && !IsStripSpace(t[0]) && !IsStripSpace(t[|t| - 1])
  {
    LiteralTextShape(e.value);
    var t := OptionText(e);
    assert t[|t| - 1] == '%';
    assert t[0] == 'O';
  }

  function OptionLines(entries: seq<OptionEntry>): (r: seq<string>)
    ensures |r| == |entries|
    ensures forall i :: 0 <= i < |entries| ==> r[i] == OptionText(entries[i])
  {
    if |entries| == 0 then [] else [OptionText(entries[0])] + OptionLines(entries[1..])
  }

  /** A multiple-choice answer as the prompt asks for it. */
  function ChoiceAnswer(pre: string, entries: seq<OptionEntry>, post: string): string {
    Wrap("probabilities", pre, BlockBody(OptionLines(entries)), post)
  }

  predicate DistinctNames(entries: seq<OptionEntry>) {
    forall i, j :: 0 <= i < j < |entries| ==> entries[i].name != entries[j].name
  }

  /** What reading a multiple-choice answer should give: each option with its percentage as a fraction. */
  function ExpectedProbabilities(entries: seq<OptionEntry>): (r: OMap<string, real>)
    requires forall i :: 0 <= i < |entries| ==> GoodOption(entries[i])
    ensures |r| == |entries|
    ensures forall i :: 0 <= i < |entries| ==> r[i] == ExpectedOption(entries[i])
  {
    if |entries| == 0 then []
    else [ExpectedOption(entries[0])] + ExpectedProbabilities(entries[1..])
  }

  /** An option's name with its percentage as a fraction. */
  function ExpectedOption(e: OptionEntry): (string, real)
    requires GoodOption(e)
  {
    (e.name, ExpectedProbability(e.value))
  }

  lemma {:induction false} ProbabilitiesOfBlock(text: string, pairs: seq<(string, real)>)
    requires ParseAll(Lines(text), ProbabilityLine) == Success(pairs)
    ensures ProbabilitiesOf(Some(text)) == Success(PutAll([], pairs))
  {
  }

  /** A block whose lines all read gives the table in which each key holds
      the value of its last line, the keys in the order they first appear. */
  lemma {:induction false} ProbabilitiesOfReads(text: string)
    requires ParseAll(Lines(text), ProbabilityLine).Success?
    ensures var pairs := ParseAll(Lines(text), ProbabilityLine).value;
            var r := ProbabilitiesOf(Some(text));
            && r.Success?
            && Keys(r.value) == FirstSeen(Keys(pairs))
            && forall k :: Get(r.value, k) == LastValue(pairs, k)
  {
    var pairs := ParseAll(Lines(text), ProbabilityLine).value;
    var empty: OMap<string, real> := [];
    PutAllKeys(empty, pairs);
    assert Keys(empty) + Keys(pairs) == Keys(pairs);
    forall k ensures Get(PutAll(empty, pairs), k) == LastValue(pairs, k) {
      PutAllGet(empty, pairs, k);
    }
  }

  /** A repeated option is overwritten: the last line naming it decides its
      probability. */
  lemma {:induction false} ProbabilityLastLineWins(text: string, i: nat)
    requires ParseAll(Lines(text), ProbabilityLine).Success?
    requires i < |Lines(text)|
    requires forall j :: i < j < |Lines(text)| ==>
               ProbabilityLine(Lines(text)[j]).value.0 != ProbabilityLine(Lines(text)[i]).value.0
    ensures ProbabilitiesOf(Some(text)).Success?
    ensures Get(ProbabilitiesOf(Some(text)).value, ProbabilityLine(Lines(text)[i]).value.0)
              == Some(ProbabilityLine(Lines(text)[i]).value.1)
  {
    var pairs := ParseAll(Lines(text), ProbabilityLine).value;
    forall j | i < j < |pairs| ensures pairs[j].0 != pairs[i].0 {
    }
    ProbabilitiesOfReads(text);
    LastValueAt(pairs, i);
  }

  /** A multiple-choice answer written in the requested format reads back as
      its options and probabilities, in order. */
  lemma {:induction false} ProbabilitiesRoundTrip(pre: string, entries: seq<OptionEntry>, post: string)
    requires OpensAfter("probabilities", pre)
    requires forall i :: 0 <= i < |entries| ==> GoodOption(entries[i])
    requires DistinctNames(entries)
    ensures Probabilities(ChoiceAnswer(pre, entries, post)) == Success(ExpectedProbabilities(entries))
  {
    var lines := OptionLines(entries);
    var pairs := ExpectedProbabilities(entries);
    OptionLinesShape(entries);
    BlockOfWrap("probabilities", pre, lines, post);
    OptionLinesParse(entries);
    assert Valid(pairs);
    PutAllFresh([], pairs);
    assert [] + pairs == pairs;
    ProbabilitiesOfBlock(Join(lines, "\n"), pairs);
  }

  /** The written option lines fit in a block and come back out of it whole. */
  lemma {:induction false} OptionLinesShape(entries: seq<OptionEntry>)
    requires forall i :: 0 <= i < |entries| ==> GoodOption(entries[i])
    ensures var lines := OptionLines(entries);
            && (forall i :: 0 <= i < |lines| ==> '<' !in lines[i] && '\n' !in lines[i])
            && Unpadded(Join(lines, "\n"))
            && (|lines| > 0 ==> lines[|lines| - 1] != [])
  {
    var lines := OptionLines(entries);
    forall i | 0 <= i < |lines|
      ensures '<' !in lines[i] && '\n' !in lines[i] && |lines[i]| > 0
      ensures !IsStripSpace(lines[i][0]) && !IsStripSpace(lines[i][|lines[i]| - 1])
    {
      OptionTextShape(entries[i]);
    }
    if |lines| > 0 {
      JoinUnpadded(lines, "\n");
    }
  }

  /** Each written option line parses to its expected pair. */
  lemma {:induction false} OptionLinesParse(entries: seq<OptionEntry>)
    requires forall i :: 0 <= i < |entries| ==> GoodOption(entries[i])
    ensures ParseAll(OptionLines(entries), ProbabilityLine) == Success(ExpectedProbabilities(entries))
  {
    var lines := OptionLines(entries);
    var pairs := ExpectedProbabilities(entries);
    forall i | 0 <= i < |lines|
      ensures ProbabilityLine(lines[i]) == Success(pairs[i])
    {
      ProbabilityLineOf(entries[i]);
    }
    ParseAllOf(lines, ProbabilityLine, pairs);
  }

  /** A binary answer as the prompt asks for it: `<probability>`, the percentage, `</probability>`. */
  function BinaryAnswer(pre: string, value: Literal, post: string): string {
    Wrap("probability", pre, BlockBody([LiteralText(value) + "%"]), post)
  }

  /** A binary answer written in the requested format reads back as its
      percentage, as a fraction. */
  lemma {:induction false} ProbabilityRoundTrip(pre: string, value: Literal, post: string)
    requires OpensAfter("probability", pre) && WellFormed(value)
    ensures Probability(BinaryAnswer(pre, value, post)) == Success(ExpectedProbability(value))
  {
    BinaryAnswerReads(pre, value, post);
    PercentOfLiteral(value);
  }

  /** The fraction a percentage literal stands for. */
  function ExpectedProbability(value: Literal): real
    requires WellFormed(value)
  {
    LiteralValue(value) / 100.0
  }

  /** The block of a binary answer is its percentage text. */
  lemma {:induction false} BinaryAnswerReads(pre: string, value: Literal, post: string)
    requires OpensAfter("probability", pre) && WellFormed(value)
    ensures Probability(BinaryAnswer(pre, value, post)) == Success(ReadPercent(LiteralText(value) + "%"))
  {
    var line := LiteralText(value) + "%";
    LiteralTextShape(value);
    assert line[|line| - 1] == '%' && line[0] == LiteralText(value)[0];
    assert Join([line], "\n") == line;
    BlockOfWrap("probability", pre, [line], post);
    assert ExtractedContent(BinaryAnswer(pre, value, post), "probability") == Some(line);
  }

  /** The swapped arguments lose every answer: the same reply that the
      intended helpers read is rejected by the helpers as written. */
  lemma {:induction false} SwappedArgumentsLoseAnswer(pre: string, value: Literal, post: string)
    requires OpensAfter("probability", pre) && WellFormed(value)
    ensures Probability(BinaryAnswer(pre, value, post)).Success?
    ensures ProbabilityAsWritten(BinaryAnswer(pre, value, post)).Failure?
  {
    ProbabilityRoundTrip(pre, value, post);
    AsWrittenNeverReads(BinaryAnswer(pre, value, post));
  }
}
