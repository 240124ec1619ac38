/** The data block of tournament_retro.rb: the resolved questions that have
    a score, best score first, each rendered as a small tagged record. The
    question list comes from the network and is a parameter. */
module TournamentRetro {
  import opened Wrappers
  import opened RubyString
  import opened RubyNumber
  import opened Sorting
  import opened TaggedBlock

  datatype ScoredQuestion = ScoredQuestion(title: string, score: Option<real>)

  /** `questions.reject! { |q| q.spot_peer_score.nil? }` */
  function Scored(qs: seq<ScoredQuestion>): (r: seq<ScoredQuestion>)
    ensures forall i :: 0 <= i < |r| ==> r[i].score.Some?
    ensures forall q: ScoredQuestion :: q in r <==> q in qs && q.score.Some?
    ensures multiset(r) <= multiset(qs)
    ensures forall q: ScoredQuestion :: q.score.Some? ==> multiset(r)[q] == multiset(qs)[q]
  {
    if |qs| == 0 then []
    else
      assert qs == [qs[0]] + qs[1..];
      if qs[0].score.Some? then [qs[0]] + Scored(qs[1..]) else Scored(qs[1..])
  }

  /** The score, for questions known to have one. */
  function ScoreOf(q: ScoredQuestion): real {
    q.score.GetOr(0.0)
  }

  function Reverse<T>(s: seq<T>): (r: seq<T>)
    ensures |r| == |s|
    ensures forall i :: 0 <= i < |s| ==> r[i] == s[|s| - 1 - i]
    ensures multiset(r) == multiset(s)
  {
    if |s| == 0 then []
    else
      assert s == [s[0]] + s[1..];
      Reverse(s[1..]) + [s[0]]
  }

  /** `sort_by!(&:spot_peer_score)` then `reverse!`: the scored questions, best first. */
  function Ranked(qs: seq<ScoredQuestion>): (r: seq<ScoredQuestion>)
    ensures multiset(r) == multiset(Scored(qs))
    ensures forall i :: 0 <= i < |r| ==> r[i].score.Some?
    ensures forall i, j :: 0 <= i < j < |r| ==> ScoreOf(r[i]) >= ScoreOf(r[j])
  {
    var scored := Scored(qs);
    var sorted := SortBy(scored, ScoreOf);
    var r := Reverse(sorted);
    AllScored(scored, r);
    ReverseDescends(sorted);
    r
  }

  lemma {:induction false} AllScored(scored: seq<ScoredQuestion>, r: seq<ScoredQuestion>)
    requires forall i :: 0 <= i < |scored| ==> scored[i].score.Some?
    requires multiset(r) == multiset(scored)
    ensures forall i :: 0 <= i < |r| ==> r[i].score.Some?
  {
    forall i | 0 <= i < |r| ensures r[i].score.Some? {
      ElementOfPermutation(scored, r, i);
    }
  }

  /** Reversing an ascending order gives a descending one. */
  lemma {:induction false} ReverseDescends(sorted: seq<ScoredQuestion>)
    requires SortedBy(sorted, ScoreOf)
    ensures var r := Reverse(sorted); forall i, j :: 0 <= i < j < |r| ==> ScoreOf(r[i]) >= ScoreOf(r[j])
  {
    var r := Reverse(sorted);
    var n := |sorted|;
    forall i, j | 0 <= i < j < |r| ensures ScoreOf(r[i]) >= ScoreOf(r[j]) {
      assert r[i] == sorted[n - 1 - i] && r[j] == sorted[n - 1 - j];
      assert 0 <= n - 1 - j < n - 1 - i < n;
    }
  }

  /** `Float#round`: the nearest integer, halves away from zero. */
  function Round(x: real): (n: int)
    ensures x - 0.5 <= n as real <= x + 0.5
    ensures n as real == x + 0.5 ==> x >= 0.0
    ensures n as real == x - 0.5 ==> x < 0.0
    ensures x >= 0.0 ==> n >= 0
  {
    if x >= 0.0 then (x + 0.5).Floor else -((-x + 0.5).Floor)
  }

  /** One question's record, each line ending in a newline: the rounded
      score and the title, each in its own tag, inside `<forecast>` tags. */
  function Block(q: ScoredQuestion): (r: string)
    ensures RecordShaped(r)
  {
    var score := Wrap("spot_peer_score", "<forecast>\n", ToS(Round(ScoreOf(q))), "\n");
    var head := score + Open("title") + q.title + Close("title");
    assert Wrap("title", score, q.title, "\n</forecast>\n") == head + "\n</forecast>\n";
    assert head[0] == '<';
    Wrap("title", score, q.title, "\n</forecast>\n")
  }

  /** Every `<` in `s` is followed, inside `s`, by a character other than `c`:
      no tag whose name starts with `c` opens in `s`. */
  predicate NoTagStart(s: string, c: char) {
    forall k :: 0 <= k < |s| && s[k] == '<' ==> k + 1 < |s| && s[k + 1] != c
  }

  lemma {:induction false} NoTagStartConcat(a: string, b: string, c: char)
    requires NoTagStart(a, c) && NoTagStart(b, c)
    ensures NoTagStart(a + b, c)
  {
    var s := a + b;
    forall k | 0 <= k < |s| && s[k] == '<' ensures k + 1 < |s| && s[k + 1] != c {
      if k < |a| {
        assert a[k] == '<';
      } else {
        assert b[k - |a|] == '<';
      }
    }
  }

  /** Prose in which no tag starting like `tag` opens is followed by the first `<tag>`. */
  lemma {:induction false} OpensAfterNoTagStart(tag: string, pre: string)
    requires |tag| > 0 && NoTagStart(pre, tag[0])
    ensures OpensAfter(tag, pre)
  {
    var open := Open(tag);
    var s := pre + open;
    assert IsAt(s, open, |pre|) by {
      assert s[|pre|..|pre| + |open|] == open;
    }
    forall k | 0 <= k < |pre| ensures !IsAt(s, open, k) {
      assert s[k] == pre[k];
      if k + |open| <= |s| {
        if pre[k] == '<' {
          assert s[k + 1] == pre[k + 1];
          assert s[k..k + |open|][1] != open[1];
        } else {
          assert s[k..k + |open|][0] != open[0];
        }
      }
    }
  }

  /** The rounded score has no `<`, and no strip whitespace at either end. */
  lemma {:induction false} ScoreTextShape(n: int)
    ensures '<' !in ToS(n) && |ToS(n)| > 0 && Unpadded(ToS(n))
    ensures NoTagStart(ToS(n), 't')
  {
    ToSDigits(n);
    ToSParts(n);
    var t := ToS(n);
    assert '<' !in t by {
      forall i | 0 <= i < |t| ensures t[i] != '<' {
        assert t[i] == '-' || IsDigit(t[i]);
      }
    }
    assert |t| > 0 ==> t[0] == '-' || IsDigit(t[0]);
    assert |t| > 0 ==> t[|t| - 1] == '-' || IsDigit(t[|t| - 1]);
  }

  /** The rounded score reads back from its record as the integer written. */
  lemma {:induction false} BlockScoreReads(q: ScoredQuestion)
    ensures ExtractXml("spot_peer_score", Block(q)) == Some(ToS(Round(ScoreOf(q))))
    ensures ToI(ExtractXml("spot_peer_score", Block(q)).value) == Round(ScoreOf(q))
  {
    var n := Round(ScoreOf(q));
    ScoreRecord(q);
    ScoreTextShape(n);
    StripUnpadded(ToS(n));
    ToIOfToS(n);
  }

  /** The score sits in its record as the first `spot_peer_score` block. */
  lemma {:induction false} ScoreRecord(q: ScoredQuestion)
    ensures ExtractXml("spot_peer_score", Block(q)) == Some(Strip(ToS(Round(ScoreOf(q)))))
  {
    var t := ToS(Round(ScoreOf(q)));
    var pre := "<forecast>\n";
    var post := "\n" + Open("title") + q.title + Close("title") + "\n</forecast>\n";
    BlockAroundScore(q);
    ForecastOpensNothing();
    OpensAfterNoTagStart("spot_peer_score", pre);
    ScoreTextShape(Round(ScoreOf(q)));
    AngleFreeCloses("spot_peer_score", t);
    ExtractOfWrap("spot_peer_score", pre, t, post);
  }

  lemma {:induction false} BlockAroundScore(q: ScoredQuestion)
    ensures Block(q) == Wrap("spot_peer_score", "<forecast>\n", ToS(Round(ScoreOf(q))),
                             "\n" + Open("title") + q.title + Close("title") + "\n</forecast>\n")
  {
    var w := Wrap("spot_peer_score", "<forecast>\n", ToS(Round(ScoreOf(q))), "\n");
    var x := Open("title") + q.title + Close("title") + "\n</forecast>\n";
    WrapThen("spot_peer_score", "<forecast>\n", ToS(Round(ScoreOf(q))), "\n", x);
    assert Block(q) == w + x;
    assert "\n" + x == "\n" + Open("title") + q.title + Close("title") + "\n</forecast>\n";
  }

  /** Text appended after a block belongs to the prose after it. */
  lemma {:induction false} WrapThen(tag: string, pre: string, body: string, post: string, x: string)
    ensures Wrap(tag, pre, body, post) + x == Wrap(tag, pre, body, post + x)
  {
  }

  lemma {:induction false} ForecastOpensNothing()
    ensures NoTagStart("<forecast>\n", 's')
  {
    var pre := "<forecast>\n";
    forall k | 0 <= k < |pre| && pre[k] == '<' ensures k + 1 < |pre| && pre[k + 1] != 's' {
      assert k == 0;
    }
  }

  lemma {:induction false} StripUnpadded(t: string)
    requires Unpadded(t)
    ensures Strip(t) == t
  {
    StripOfPadded("", t, "");
    assert "" + t + "" == t;
  }

  /** A title without `</title>` in it reads back from its record, stripped. */
  lemma {:induction false} BlockTitleReads(q: ScoredQuestion)
    requires ClosesAfter("title", q.title)
    ensures ExtractXml("title", Block(q)) == Some(Strip(q.title))
  {
    var pre := Wrap("spot_peer_score", "<forecast>\n", ToS(Round(ScoreOf(q))), "\n");
    ScoreTextShape(Round(ScoreOf(q)));
    ScoreLineOpensNothing(ToS(Round(ScoreOf(q))));
    OpensAfterNoTagStart("title", pre);
    ExtractOfWrap("title", pre, q.title, "\n</forecast>\n");
  }

  /** No `<t…` tag opens in the record before its title. */
  lemma {:induction false} ScoreLineOpensNothing(t: string)
    requires NoTagStart(t, 't')
    ensures NoTagStart(Wrap("spot_peer_score", "<forecast>\n", t, "\n"), 't')
  {
    var a := "<forecast>\n" + Open("spot_peer_score");
    var b := Close("spot_peer_score") + "\n";
    assert NoTagStart(a, 't') by {
      forall k | 0 <= k < |a| && a[k] == '<' ensures k + 1 < |a| && a[k + 1] != 't' {
        assert k == 0 || k == 11;
      }
    }
    assert NoTagStart(b, 't') by {
      forall k | 0 <= k < |b| && b[k] == '<' ensures k + 1 < |b| && b[k + 1] != 't' {
        assert k == 0;
      }
    }
    NoTagStartConcat(a, t, 't');
    NoTagStartConcat(a + t, b, 't');
    assert Wrap("spot_peer_score", "<forecast>\n", t, "\n") == (a + t) + b;
  }

  function Concat(blocks: seq<string>): string {
    if |blocks| == 0 then "" else blocks[0] + Concat(blocks[1..])
  }

  function Blocks(qs: seq<ScoredQuestion>): (r: seq<string>)
    ensures |r| == |qs|
    ensures forall i :: 0 <= i < |qs| ==> r[i] == Block(qs[i])
  {
    seq(|qs|, i requires 0 <= i < |qs| => Block(qs[i]))
  }

  /** `data.join.strip`, the text the prompt embeds between `<forecasts>` tags. */
  function RetroData(qs: seq<ScoredQuestion>): (r: string)
    ensures r == "" <==> |Ranked(qs)| == 0
  {
    var blocks := Blocks(Ranked(qs));
    if |blocks| > 0 then
      RecordsStrip(Ranked(qs));
      ConcatStart(blocks);
      Strip(Concat(blocks))
    else
      assert blocks == [];
      StripEmpty();
      Strip(Concat(blocks))
  }

  lemma {:induction false} ConcatShape(blocks: seq<string>)
    requires |blocks| > 0
    requires forall i :: 0 <= i < |blocks| ==> |blocks[i]| > 0 && blocks[i][0] == '<'
    requires blocks[|blocks| - 1][|blocks[|blocks| - 1]| - 1] == '\n'
    ensures var c := Concat(blocks); |c| > 0 && c[0] == '<' && c[|c| - 1] == '\n'
    decreases |blocks|
  {
    if |blocks| > 1 {
      ConcatShape(blocks[1..]);
    }
  }

  /** The embedded text is the records, best score first, without the
      final newline, and empty when no question has a score. */
  lemma {:induction false} RetroDataShape(qs: seq<ScoredQuestion>)
    ensures var c := Concat(Blocks(Ranked(qs)));
            && (|Ranked(qs)| == 0 ==> RetroData(qs) == "")
            && (|Ranked(qs)| > 0 ==> |c| > 0 && RetroData(qs) == c[..|c| - 1])
  {
    var ranked := Ranked(qs);
    assert RetroData(qs) == Strip(Concat(Blocks(ranked)));
    if |ranked| > 0 {
      RecordsStrip(ranked);
      ConcatStart(Blocks(ranked));
    } else {
      assert Blocks(ranked) == [];
      StripEmpty();
    }
  }

  /** Stripping the records of a nonempty list drops only the final newline. */
  lemma {:induction false} RecordsStrip(ranked: seq<ScoredQuestion>)
    requires |ranked| > 0
    ensures var c := Concat(Blocks(ranked)); |c| > 0 && Strip(c) == c[..|c| - 1]
  {
    var blocks := Blocks(ranked);
    ConcatStrip(blocks);
  }

  lemma {:induction false} StripEmpty()
    ensures Strip("") == ""
  {
    StripOfPadded("", "", "");
    assert "" + "" + "" == "";
  }

  /** A record starts with a tag and ends with a tag and a newline. */
  predicate RecordShaped(b: string) {
    |b| >= 2 && b[0] == '<' && b[|b| - 2] == '>' && b[|b| - 1] == '\n'
  }

  /** Stripping the concatenated records drops only the final newline. */
  lemma {:induction false} ConcatStrip(blocks: seq<string>)
    requires |blocks| > 0
    requires RecordShaped(blocks[0]) && RecordShaped(blocks[|blocks| - 1])
    ensures |Concat(blocks)| > 0 && Strip(Concat(blocks)) == Concat(blocks)[..|Concat(blocks)| - 1]
  {
    ConcatStart(blocks);
    ConcatEnd(blocks);
    EndsOf(Concat(blocks), blocks[|blocks| - 1]);
    TrimLastNewline(Concat(blocks));
  }

  lemma {:induction false} EndsOf(c: string, last: string)
    requires |last| <= |c| && c[|c| - |last|..] == last && RecordShaped(last)
    ensures |c| >= 2 && c[|c| - 2] == '>' && c[|c| - 1] == '\n'
  {
    assert c[|c| - 1] == c[|c| - |last|..][|last| - 1];
    assert c[|c| - 2] == c[|c| - |last|..][|last| - 2];
  }

  lemma {:induction false} TrimLastNewline(c: string)
    requires |c| >= 2 && c[0] == '<' && c[|c| - 2] == '>' && c[|c| - 1] == '\n'
    ensures Strip(c) == c[..|c| - 1]
  {
    var t := c[..|c| - 1];
    assert c == "" + t + "\n";
    BracketsNotSpace();
    assert t[0] == '<' && t[|t| - 1] == '>';
    StripOfPadded("", t, "\n");
  }

  lemma {:induction false} BracketsNotSpace()
    ensures !IsStripSpace('<') && !IsStripSpace('>')
    ensures AllStripSpace("\n") && AllStripSpace("")
  {
  }

  lemma {:induction false} ConcatStart(blocks: seq<string>)
    requires |blocks| > 0 && |blocks[0]| > 0
    ensures |Concat(blocks)| > 0 && Concat(blocks)[0] == blocks[0][0]
  {
    assert Concat(blocks) == blocks[0] + Concat(blocks[1..]);
  }

  /** The text ends with the last block. */
  lemma {:induction false} ConcatEnd(blocks: seq<string>)
    requires |blocks| > 0
    ensures var c := Concat(blocks); var last := blocks[|blocks| - 1];
            |last| <= |c| && c[|c| - |last|..] == last
    decreases |blocks|
  {
    if |blocks| > 1 {
      ConcatEnd(blocks[1..]);
      assert blocks[1..][|blocks[1..]| - 1] == blocks[|blocks| - 1];
      var c := Concat(blocks);
      var rest := Concat(blocks[1..]);
      var last := blocks[|blocks| - 1];
      assert c == blocks[0] + rest;
      assert c[|c| - |last|..] == rest[|rest| - |last|..];
    }
  }
}
