/** Tagged blocks in model output: `<tag>...</tag>`.

    `extract_xml` and `strip_xml` both use the pattern `<tag>`, any text
    matched lazily, `</tag>`. A regex engine reports the leftmost match; the
    lazy body then ends at the first closing tag after the opening one. If
    the first opening tag has no closing tag after it, no later opening tag
    has one either, so "leftmost match" is simply "first opening tag, then
    the first closing tag after it". The tag is taken literally (see README
    for regex metacharacters).

    The matching itself is stated for any pair of delimiters `open` and
    `close`; the tag operations apply it to `<tag>` and `</tag>`. */
module TaggedBlock {
  import opened Wrappers
  import opened RubyString

  function Open(tag: string): string {
    "<" + tag + ">"
  }

  function Close(tag: string): string {
    "</" + tag + ">"
  }

  /** `text` holds at least one complete block between `open` and `close`. */
  ghost predicate HasBlockBetween(open: string, close: string, text: string) {
    exists i, j :: IsAt(text, open, i) && i + |open| <= j && IsAt(text, close, j)
  }

  /** The block opening at `i` and closing at `j` is the one a regex match
      reports: no earlier opening delimiter, no earlier closing delimiter after it. */
  predicate IsFirstMatch(open: string, close: string, text: string, i: nat, j: nat) {
    && IsAt(text, open, i)
    && (forall k :: 0 <= k < i ==> !IsAt(text, open, k))
    && i + |open| <= j
    && IsAt(text, close, j)
    && (forall k :: i + |open| <= k < j ==> !IsAt(text, close, k))
  }

  /** Where the leftmost block starts and where its closing delimiter starts. */
  function FirstMatch(open: string, close: string, text: string): (r: Option<(nat, nat)>)
    ensures r.None? <==> !HasBlockBetween(open, close, text)
    ensures r.Some? ==> IsFirstMatch(open, close, text, r.value.0, r.value.1)
  {
    match FindFrom(text, open, 0)
    case None => None
    case Some(i) =>
      match FindFrom(text, close, i + |open|)
      case None =>
        assert !HasBlockBetween(open, close, text) by {
          forall i', j' | IsAt(text, open, i') && i' + |open| <= j'
            ensures !IsAt(text, close, j')
          {
            assert i <= i';
          }
        }
        None
      case Some(j) => Some((i, j))
  }

  /** The stripped body of the first block, nil when there is none. */
  function ExtractBetween(open: string, close: string, text: string): (r: Option<string>)
    ensures r.None? <==> !HasBlockBetween(open, close, text)
    ensures r.Some? ==> Unpadded(r.value)
    ensures r.Some? ==> exists i: nat, j: nat :: IsFirstMatch(open, close, text, i, j)
                          && i + |open| <= j <= |text|
                          && r.value == Strip(text[i + |open|..j])
  {
    match FirstMatch(open, close, text)
    case None => None
    case Some(m) => Some(Strip(text[m.0 + |open|..m.1]))
  }

  /** Every block removed, scanning on after each removal. */
  function StripBetween(open: string, close: string, text: string): (r: string)
    requires |close| > 0
    ensures |r| <= |text|
    ensures !HasBlockBetween(open, close, text) ==> r == text
    ensures HasBlockBetween(open, close, text) ==> |r| < |text|
    decreases |text|
  {
    match FirstMatch(open, close, text)
    case None => text
    case Some(m) => text[..m.0] + StripBetween(open, close, text[m.1 + |close|..])
  }

  /** Whatever block satisfies `IsFirstMatch` is the one `FirstMatch` finds. */
  lemma {:induction false} FirstMatchOf(open: string, close: string, text: string, i: nat, j: nat)
    requires IsFirstMatch(open, close, text, i, j)
    ensures FirstMatch(open, close, text) == Some((i, j))
  {
    assert IsAt(text, open, i) && i + |open| <= j && IsAt(text, close, j);
    var m := FirstMatch(open, close, text).value;
    assert m.0 == i;
    assert m.1 == j;
  }

  /** Extraction returns the stripped body of whatever block satisfies `IsFirstMatch`. */
  lemma {:induction false} ExtractOfFirstMatch(open: string, close: string, text: string, i: nat, j: nat)
    requires IsFirstMatch(open, close, text, i, j)
    ensures ExtractBetween(open, close, text) == Some(Strip(text[i + |open|..j]))
  {
    FirstMatchOf(open, close, text, i, j);
    ExtractAt(open, close, text, i, j);
  }

  lemma {:induction false} ExtractAt(open: string, close: string, text: string, i: nat, j: nat)
    requires FirstMatch(open, close, text) == Some((i, j))
    requires i + |open| <= j <= |text|
    ensures ExtractBetween(open, close, text) == Some(Strip(text[i + |open|..j]))
  {
  }

  /** Stripping keeps the text before whatever block satisfies `IsFirstMatch`
      and goes on stripping after it. */
  lemma {:induction false} StripOfFirstMatch(open: string, close: string, text: string, i: nat, j: nat)
    requires |close| > 0 && IsFirstMatch(open, close, text, i, j)
    ensures StripBetween(open, close, text) == text[..i] + StripBetween(open, close, text[j + |close|..])
  {
    FirstMatchOf(open, close, text, i, j);
    StripAt(open, close, text, i, j);
  }

  lemma {:induction false} StripAt(open: string, close: string, text: string, i: nat, j: nat)
    requires |close| > 0 && FirstMatch(open, close, text) == Some((i, j))
    requires i + |open| <= j && j + |close| <= |text|
    ensures StripBetween(open, close, text) == text[..i] + StripBetween(open, close, text[j + |close|..])
  {
  }

  /** `text` holds at least one complete `<tag>...</tag>` block. */
  ghost predicate HasBlock(tag: string, text: string) {
    HasBlockBetween(Open(tag), Close(tag), text)
  }

  /** `extract_xml(tag, text)`: the stripped body of the first block, nil when there is none. */
  function ExtractXml(tag: string, text: string): (r: Option<string>)
    ensures r.None? <==> !HasBlock(tag, text)
    ensures r.Some? ==> Unpadded(r.value)
  {
    ExtractBetween(Open(tag), Close(tag), text)
  }

  /** `strip_xml(tag, text)`: every block removed. */
  function StripXml(tag: string, text: string): (r: string)
    ensures |r| <= |text|
    ensures !HasBlock(tag, text) ==> r == text
    ensures HasBlock(tag, text) ==> |r| < |text|
  {
    StripBetween(Open(tag), Close(tag), text)
  }

  /** `strip_xml` keeps the text before the leftmost block, drops the block
      and goes on stripping the text after it. */
  lemma {:induction false} StripXmlOfFirstMatch(tag: string, text: string, i: nat, j: nat)
    requires IsFirstMatch(Open(tag), Close(tag), text, i, j)
    ensures StripXml(tag, text) == text[..i] + StripXml(tag, text[j + |Close(tag)|..])
  {
    StripOfFirstMatch(Open(tag), Close(tag), text, i, j);
  }

  // ---------------------------------------------------------------------------
  // blocks written out

  /** The text a model writes when asked for one block: prose, the block, more prose. */
  function Wrap(tag: string, pre: string, body: string, post: string): string {
    pre + Open(tag) + body + Close(tag) + post
  }

  /** The groupings of five pieces the block lemmas move between. */
  lemma {:induction false} Regroup(a: string, b: string, c: string, d: string, e: string)
    ensures a + b + c + d + e == (a + b) + (c + d + e)
    ensures a + b + c + d + e == a + (b + c) + (d + e)
    ensures a + b + c + d + e == (a + b) + c + (d + e)
    ensures c + d + e == (c + d) + e
  {
  }

  /** A block is the first match when the opening delimiter occurs first
      where the block opens and the closing delimiter first occurs, within
      the body and the delimiter itself, where the block closes. */
  lemma {:induction false} WrittenIsFirstMatch(pre: string, open: string, body: string, close: string, post: string)
    requires FindFrom(pre + open, open, 0) == Some(|pre|)
    requires FindFrom(body + close, close, 0) == Some(|body|)
    ensures IsFirstMatch(open, close, pre + open + body + close + post, |pre|, |pre| + |open| + |body|)
  {
    var text := pre + open + body + close + post;
    var head := pre + open;
    var tail := body + close + post;
    Regroup(pre, open, body, close, post);
    assert text == head + tail;
    forall k | 0 <= k <= |pre|
      ensures IsAt(text, open, k) <==> IsAt(head, open, k)
    {
      IsAtPrefix(head, tail, open, k);
    }
    forall k | 0 <= k <= |body|
      ensures IsAt(text, close, |head| + k) <==> IsAt(body + close, close, k)
    {
      IsAtShift(head, tail, close, k);
      IsAtPrefix(body + close, post, close, k);
    }
    forall k | |head| <= k < |head| + |body|
      ensures !IsAt(text, close, k)
    {
      assert IsAt(text, close, |head| + (k - |head|)) <==> IsAt(body + close, close, k - |head|);
    }
  }

  lemma {:induction false} SliceOfMiddle(a: string, b: string, c: string)
    ensures (a + b + c)[|a|..|a| + |b|] == b
    ensures (a + b + c)[..|a|] == a
    ensures (a + b + c)[|a| + |b|..] == c
  {
  }

  /** Extraction recovers the stripped body of a written block. */
  lemma {:induction false} ExtractOfWritten(pre: string, open: string, body: string, close: string, post: string)
    requires FindFrom(pre + open, open, 0) == Some(|pre|)
    requires FindFrom(body + close, close, 0) == Some(|body|)
    ensures ExtractBetween(open, close, pre + open + body + close + post) == Some(Strip(body))
  {
    WrittenIsFirstMatch(pre, open, body, close, post);
    Regroup(pre, open, body, close, post);
    SliceOfMiddle(pre + open, body, close + post);
  }

  /** Stripping removes a written block and carries on after it. */
  lemma {:induction false} StripOfWritten(pre: string, open: string, body: string, close: string, post: string)
    requires |close| > 0
    requires FindFrom(pre + open, open, 0) == Some(|pre|)
    requires FindFrom(body + close, close, 0) == Some(|body|)
    ensures StripBetween(open, close, pre + open + body + close + post) == pre + StripBetween(open, close, post)
  {
    WrittenIsFirstMatch(pre, open, body, close, post);
    Regroup(pre, open, body, close, post);
    SliceOfMiddle(pre, open + body, close + post);
    SliceOfMiddle(pre + open + body, close, post);
  }

  lemma {:induction false} TagsStartWithAngle(tag: string)
    ensures |Open(tag)| > 0 && Open(tag)[0] == '<'
    ensures |Close(tag)| > 0 && Close(tag)[0] == '<'
  {
  }

  /** A pattern right after text lacking its first character is found there. */
  lemma {:induction false} FindAfter(a: string, pat: string)
    requires |pat| > 0 && pat[0] !in a
    ensures FindFrom(a + pat, pat, 0) == Some(|a|)
  {
    FindFromSkips(a, pat, pat, 0);
    assert pat[..|pat|] == pat;
    assert IsAt(pat, pat, 0);
    assert FindFrom(pat, pat, 0) == Some(0);
  }

  /** Written after `pre`, `<tag>` is the first `<tag>`: `pre` holds none,
      not even one running into the written tag. */
  predicate OpensAfter(tag: string, pre: string) {
    FindFrom(pre + Open(tag), Open(tag), 0) == Some(|pre|)
  }

  /** Written after `body`, `</tag>` is the first `</tag>` of `body + </tag>`. */
  predicate ClosesAfter(tag: string, body: string) {
    FindFrom(body + Close(tag), Close(tag), 0) == Some(|body|)
  }

  /** Prose without `<` never holds a tag before the written one. */
  lemma {:induction false} AngleFreeOpens(tag: string, pre: string)
    requires '<' !in pre
    ensures OpensAfter(tag, pre)
  {
    TagsStartWithAngle(tag);
    FindAfter(pre, Open(tag));
  }

  /** A body without `<` never holds a closing tag before the written one. */
  lemma {:induction false} AngleFreeCloses(tag: string, body: string)
    requires '<' !in body
    ensures ClosesAfter(tag, body)
  {
    TagsStartWithAngle(tag);
    FindAfter(body, Close(tag));
  }

  /** Extraction recovers the stripped body of a written block whenever
      `<tag>` does not occur earlier and `</tag>` does not occur inside the
      body (other `<` characters are allowed anywhere). */
  lemma {:induction false} ExtractOfWrap(tag: string, pre: string, body: string, post: string)
    requires OpensAfter(tag, pre) && ClosesAfter(tag, body)
    ensures ExtractXml(tag, Wrap(tag, pre, body, post)) == Some(Strip(body))
  {
    ExtractOfWritten(pre, Open(tag), body, Close(tag), post);
  }

  /** Under the same conditions stripping removes a written block, keeps the
      prose before it and carries on after it. */
  lemma {:induction false} StripOfWrap(tag: string, pre: string, body: string, post: string)
    requires OpensAfter(tag, pre) && ClosesAfter(tag, body)
    ensures StripXml(tag, Wrap(tag, pre, body, post)) == pre + StripXml(tag, post)
  {
    TagsStartWithAngle(tag);
    StripOfWritten(pre, Open(tag), body, Close(tag), post);
  }

  /** Text without the opening delimiter's first character holds no block
      and passes through both operations unchanged. */
  lemma {:induction false} NoBlockWithout(open: string, close: string, text: string)
    requires |open| > 0 && open[0] !in text && |close| > 0
    ensures ExtractBetween(open, close, text) == None
    ensures StripBetween(open, close, text) == text
  {
    if HasBlockBetween(open, close, text) {
      var i, j :| IsAt(text, open, i) && i + |open| <= j && IsAt(text, close, j);
      IsAtFirstChar(text, open, i);
      assert false;
    }
  }

  /** Text without `<` holds no block and passes through both operations unchanged. */
  lemma {:induction false} NoBlockWithoutAngle(tag: string, text: string)
    requires '<' !in text
    ensures ExtractXml(tag, text) == None
    ensures StripXml(tag, text) == text
  {
    TagsStartWithAngle(tag);
    NoBlockWithout(Open(tag), Close(tag), text);
  }

  /** The body extraction returns never contains the closing delimiter. */
  lemma {:induction false} ExtractedBodyHasNoClose(open: string, close: string, text: string, i: nat, j: nat)
    requires |close| > 0 && IsFirstMatch(open, close, text, i, j)
    ensures !Contains(text[i + |open|..j], close)
  {
    var off := i + |open|;
    forall k
      ensures IsAt(text[off..j], close, k) ==> IsAt(text, close, off + k)
    {
      IsAtInSlice(text, off, j, close, k);
    }
  }

  /** An occurrence inside a slice is an occurrence in the whole text, shifted by the slice's start. */
  lemma {:induction false} IsAtInSlice(text: string, lo: nat, hi: nat, pat: string, k: int)
    requires lo <= hi <= |text|
    ensures IsAt(text[lo..hi], pat, k) ==> IsAt(text, pat, lo + k)
  {
    var part := text[lo..hi];
    if IsAt(part, pat, k) {
      forall t | 0 <= t < |pat|
        ensures text[lo + k..lo + k + |pat|][t] == pat[t]
      {
        assert part[k..k + |pat|][t] == pat[t];
        assert part[k + t] == text[lo + k + t];
      }
      assert text[lo + k..lo + k + |pat|] == pat;
    }
  }
}
