/** The handful of Ruby `String` methods the modelled code leans on:
    `strip`, `split(sep, 2)`, awk-style `split(' ', 2)`, `split("\n")`,
    `Array#join` and substring search. Each is stated by what it keeps and
    what it drops, so that the parsers built on top can be reasoned about. */
module RubyString {
  import opened Wrappers

  /** ASCII whitespace, as awk-mode `split` and `to_i` skip it. */
  predicate IsSpace(c: char) {
    c == ' ' || c == '\t' || c == '\n' || c == '\U{B}' || c == '\U{C}' || c == '\r'
  }

  /** Whitespace as `String#strip` removes it: ASCII whitespace and NUL. */
  predicate IsStripSpace(c: char) {
    IsSpace(c) || c == '\0'
  }

  predicate AllSpace(s: string) {
    forall i :: 0 <= i < |s| ==> IsSpace(s[i])
  }

  predicate AllStripSpace(s: string) {
    forall i :: 0 <= i < |s| ==> IsStripSpace(s[i])
  }

  /** Neither end of `s` is strip whitespace. */
  predicate Unpadded(s: string) {
    |s| > 0 ==> !IsStripSpace(s[0]) && !IsStripSpace(s[|s| - 1])
  }

  // ---------------------------------------------------------------------------
  // strip

  function TrimStart(s: string): (r: string)
    ensures |r| <= |s| && r == s[|s| - |r|..]
    ensures AllStripSpace(s[..|s| - |r|])
    ensures |r| > 0 ==> !IsStripSpace(r[0])
  {
    if |s| > 0 && IsStripSpace(s[0]) then TrimStart(s[1..]) else s
  }

  function TrimEnd(s: string): (r: string)
    ensures |r| <= |s| && r == s[..|r|]
    ensures AllStripSpace(s[|r|..])
    ensures |r| > 0 ==> !IsStripSpace(r[|r| - 1])
  {
    if |s| > 0 && IsStripSpace(s[|s| - 1]) then TrimEnd(s[..|s| - 1]) else s
  }

  /** `r` is `s` with the strip whitespace before offset `i` and after `r` removed. */
  predicate StripsTo(s: string, r: string, i: int) {
    0 <= i <= |s| - |r| && r == s[i..i + |r|]
    && AllStripSpace(s[..i]) && AllStripSpace(s[i + |r|..])
  }

  /** `String#strip`: `s` with its leading and trailing whitespace removed. */
  function Strip(s: string): (r: string)
    ensures Unpadded(r)
    ensures exists i :: StripsTo(s, r, i)
  {
    var a := TrimStart(s);
    var r := TrimEnd(a);
    StripWitness(s, a, r);
    r
  }

  lemma {:induction false} StripWitness(s: string, a: string, r: string)
    requires |a| <= |s| && a == s[|s| - |a|..] && AllStripSpace(s[..|s| - |a|])
    requires |a| > 0 ==> !IsStripSpace(a[0])
    requires |r| <= |a| && r == a[..|r|] && AllStripSpace(a[|r|..])
    requires |r| > 0 ==> !IsStripSpace(r[|r| - 1])
    ensures Unpadded(r)
    ensures StripsTo(s, r, |s| - |a|)
  {
    var i := |s| - |a|;
    assert s[i + |r|..] == a[|r|..];
    assert r == s[i..i + |r|];
    if |r| > 0 {
      assert r[0] == a[0];
    }
  }

  lemma {:induction false} TrimStartOfPadded(w: string, t: string)
    requires AllStripSpace(w)
    requires |t| > 0 ==> !IsStripSpace(t[0])
    ensures TrimStart(w + t) == t
    decreases |w|
  {
    if |w| > 0 {
      assert (w + t)[1..] == w[1..] + t;
      TrimStartOfPadded(w[1..], t);
    } else {
      assert w + t == t;
    }
  }

  lemma {:induction false} TrimEndOfPadded(t: string, w: string)
    requires AllStripSpace(w)
    requires |t| > 0 ==> !IsStripSpace(t[|t| - 1])
    ensures TrimEnd(t + w) == t
    decreases |w|
  {
    if |w| > 0 {
      var w' := w[..|w| - 1];
      assert (t + w)[..|t + w| - 1] == t + w';
      assert IsStripSpace((t + w)[|t + w| - 1]);
      TrimEndOfPadded(t, w');
    } else {
      assert t + w == t;
    }
  }

  /** `strip` removes exactly the padding around an unpadded core. */
  lemma {:induction false} StripOfPadded(a: string, t: string, b: string)
    requires AllStripSpace(a) && AllStripSpace(b) && Unpadded(t)
    ensures Strip(a + t + b) == t
  {
    if |t| == 0 {
      assert a + t + b == a + b;
      TrimStartOfPadded(a + b, "");
      assert a + b + "" == a + b;
      assert TrimStart(a + b) == "";
    } else {
      assert a + t + b == a + (t + b);
      TrimStartOfPadded(a, t + b);
      TrimEndOfPadded(t, b);
    }
  }

  // ---------------------------------------------------------------------------
  // substring search

  /** `pat` occurs in `s` starting at index `k`. */
  predicate IsAt(s: string, pat: string, k: int) {
    0 <= k && k + |pat| <= |s| && s[k..k + |pat|] == pat
  }

  /** The first index at or after `from` where `pat` occurs, if any. */
  function FindFrom(s: string, pat: string, from: nat): (r: Option<nat>)
    ensures r.Some? ==> from <= r.value && IsAt(s, pat, r.value)
    ensures r.Some? ==> forall k :: from <= k < r.value ==> !IsAt(s, pat, k)
    ensures r.None? ==> forall k :: from <= k ==> !IsAt(s, pat, k)
    decreases |s| - from
  {
    if from + |pat| > |s| then None
    else if s[from..from + |pat|] == pat then Some(from)
    else FindFrom(s, pat, from + 1)
  }

  /** An occurrence inside `b` is an occurrence inside `a + b`, shifted by `|a|`. */
  lemma {:induction false} IsAtShift(a: string, b: string, pat: string, k: int)
    requires 0 <= k
    ensures IsAt(a + b, pat, |a| + k) <==> IsAt(b, pat, k)
  {
    if 0 <= k && k + |pat| <= |b| {
      assert (a + b)[|a| + k..|a| + k + |pat|] == b[k..k + |pat|];
    }
  }

  /** An occurrence inside `a` is an occurrence inside `a + b`. */
  lemma {:induction false} IsAtPrefix(a: string, b: string, pat: string, k: int)
    requires k + |pat| <= |a|
    ensures IsAt(a + b, pat, k) <==> IsAt(a, pat, k)
  {
    if 0 <= k {
      assert (a + b)[k..k + |pat|] == a[k..k + |pat|];
    }
  }

  /** A pattern cannot start at a position of `a + b` inside `a` when `a` lacks its first character. */
  lemma {:induction false} NotAtInside(a: string, b: string, pat: string, k: int)
    requires |pat| > 0 && pat[0] !in a
    requires 0 <= k < |a|
    ensures !IsAt(a + b, pat, k)
  {
    IsAtFirstChar(a + b, pat, k);
    assert (a + b)[k] == a[k] != pat[0];
  }

  /** An occurrence starts with the pattern's first character. */
  lemma {:induction false} IsAtFirstChar(s: string, pat: string, k: int)
    requires |pat| > 0
    ensures IsAt(s, pat, k) ==> 0 <= k < |s| && s[k] == pat[0]
  {
    if IsAt(s, pat, k) {
      assert s[k..k + |pat|][0] == s[k];
    }
  }

  /** Searching `a + b` from inside `b` finds the hits of `b`, shifted by `|a|`. */
  lemma {:induction false} FindFromShift(a: string, b: string, pat: string, from: nat)
    ensures FindFrom(a + b, pat, |a| + from) == (match FindFrom(b, pat, from)
                                                  case None => None
                                                  case Some(k) => Some(|a| + k))
  {
    match FindFrom(b, pat, from) {
      case None => FindFromShiftNone(a, b, pat, from);
      case Some(k) => FindFromShiftSome(a, b, pat, from, k);
    }
  }

  lemma {:induction false} FindFromShiftNone(a: string, b: string, pat: string, from: nat)
    requires FindFrom(b, pat, from).None?
    ensures FindFrom(a + b, pat, |a| + from).None?
  {
    var r := FindFrom(a + b, pat, |a| + from);
    if r.Some? {
      IsAtShift(a, b, pat, r.value - |a|);
      assert false;
    }
  }

  lemma {:induction false} FindFromShiftSome(a: string, b: string, pat: string, from: nat, k: nat)
    requires FindFrom(b, pat, from) == Some(k)
    ensures FindFrom(a + b, pat, |a| + from) == Some(|a| + k)
  {
    var r := FindFrom(a + b, pat, |a| + from);
    IsAtShift(a, b, pat, k);
    assert r.Some?;
    IsAtShift(a, b, pat, r.value - |a|);
    if r.value < |a| + k {
      assert false;
    }
  }

  /** Searching `a + b` for a pattern whose first character `a` lacks finds the hits of `b`. */
  lemma {:induction false} FindFromSkips(a: string, b: string, pat: string, from: nat)
    requires |pat| > 0 && pat[0] !in a
    ensures FindFrom(a + b, pat, |a| + from) == (match FindFrom(b, pat, from)
                                                  case None => None
                                                  case Some(k) => Some(|a| + k))
    ensures from == 0 ==> FindFrom(a + b, pat, 0) == FindFrom(a + b, pat, |a|)
  {
    FindFromShift(a, b, pat, from);
    var r := FindFrom(a + b, pat, |a| + from);
    if from == 0 {
      var r0 := FindFrom(a + b, pat, 0);
      if r0.Some? && r0.value < |a| {
        NotAtInside(a, b, pat, r0.value);
      }
      if r0.Some? {
        assert r0 == r;
      } else {
        assert r.None?;
      }
    }
  }

  // ---------------------------------------------------------------------------
  // split(sep, 2)

  /** `s.split(sep, 2)` for a plain (non-awk) separator: `[]` for the empty
      string, `[s]` when `sep` does not occur, otherwise the parts before and
      after its first occurrence. */
  function Split2(s: string, sep: string): (r: seq<string>)
    requires |sep| > 0
    ensures |r| <= 2
    ensures r == [] <==> s == []
    ensures |r| == 1 ==> r[0] == s && forall k :: !IsAt(s, sep, k)
    ensures |r| == 2 ==> s == r[0] + sep + r[1] && IsAt(s, sep, |r[0]|)
                         && forall k :: 0 <= k < |r[0]| ==> !IsAt(s, sep, k)
  {
    if s == [] then []
    else match FindFrom(s, sep, 0)
      case None => [s]
      case Some(i) =>
        assert s == s[..i] + sep + s[i + |sep|..];
        [s[..i], s[i + |sep|..]]
  }

  /** `pat` occurs somewhere in `s`. */
  ghost predicate Contains(s: string, pat: string) {
    exists k :: IsAt(s, pat, k)
  }

  /** The part before the cut never holds the separator. */
  lemma {:induction false} Split2HeadClean(s: string, sep: string)
    requires |sep| > 0 && |Split2(s, sep)| == 2
    ensures !Contains(Split2(s, sep)[0], sep)
  {
    var r := Split2(s, sep);
    forall k | IsAt(r[0], sep, k)
      ensures false
    {
      assert s == r[0] + (sep + r[1]);
      IsAtPrefix(r[0], sep + r[1], sep, k);
    }
  }

  /** `split(sep, 2)` cuts at the separator when the part before it cannot hold its first character. */
  lemma {:induction false} Split2At(a: string, sep: string, b: string)
    requires |sep| > 0 && sep[0] !in a
    ensures Split2(a + sep + b, sep) == [a, b]
  {
    var s := a + sep + b;
    assert s == a + (sep + b);
    FindFromSkips(a, sep + b, sep, 0);
    assert IsAt(sep + b, sep, 0);
    assert FindFrom(sep + b, sep, 0) == Some(0);
    assert s[..|a|] == a;
    assert s[|a| + |sep|..] == b;
  }

  /** `split(sep, 2)` of a string with no occurrence of the separator's first character. */
  lemma {:induction false} Split2Absent(s: string, sep: string)
    requires |sep| > 0 && sep[0] !in s && s != []
    ensures Split2(s, sep) == [s]
  {
    forall k | 0 <= k < |s|
      ensures !IsAt(s, sep, k)
    {
      IsAtFirstChar(s, sep, k);
    }
  }

  /** What follows the first occurrence of `sep` in `s`, or all of `s` when
      `sep` does not occur: the last part of `s.split(sep, 2)`. */
  function AfterFirst(s: string, sep: string): (r: string)
    requires |sep| > 0
    ensures |r| <= |s| && r == s[|s| - |r|..]
    ensures r == s <==> !Contains(s, sep)
    ensures Contains(s, sep) ==> |r| + |sep| <= |s| && IsAt(s, sep, |s| - |r| - |sep|)
                                 && forall k :: 0 <= k < |s| - |r| - |sep| ==> !IsAt(s, sep, k)
    ensures s != [] ==> Last(Split2(s, sep)) == Some(r)
  {
    match FindFrom(s, sep, 0)
    case None => s
    case Some(i) => s[i + |sep|..]
  }

  /** `.first` of an array: nil when it is empty. */
  function First(parts: seq<string>): Option<string> {
    if |parts| == 0 then None else Some(parts[0])
  }

  /** `.last` of an array: nil when it is empty. */
  function Last(parts: seq<string>): Option<string> {
    if |parts| == 0 then None else Some(parts[|parts| - 1])
  }

  // ---------------------------------------------------------------------------
  // awk-style split(' ', 2).first

  function SkipSpace(s: string): (r: string)
    ensures |r| <= |s| && r == s[|s| - |r|..]
    ensures AllSpace(s[..|s| - |r|])
    ensures |r| > 0 ==> !IsSpace(r[0])
  {
    if |s| > 0 && IsSpace(s[0]) then SkipSpace(s[1..]) else s
  }

  /** Length of the longest prefix of `s` free of whitespace. */
  function TokenLength(s: string): (n: nat)
    ensures n <= |s|
    ensures forall i :: 0 <= i < n ==> !IsSpace(s[i])
    ensures n < |s| ==> IsSpace(s[n])
  {
    if |s| > 0 && !IsSpace(s[0]) then 1 + TokenLength(s[1..]) else 0
  }

  /** `s.split(' ', 2).first`: the first whitespace-delimited token, nil when `s` is blank. */
  function AwkFirst(s: string): (r: Option<string>)
    ensures r.None? <==> AllSpace(s)
    ensures r.Some? ==> |r.value| > 0 && forall i :: 0 <= i < |r.value| ==> !IsSpace(r.value[i])
  {
    var t := SkipSpace(s);
    if t == [] then
      assert s[..|s|] == s;
      None
    else
      Some(t[..TokenLength(t)])
  }

  /** Text that does not start with whitespace has nothing to skip. */
  lemma {:induction false} SkipSpaceNone(t: string)
    requires |t| > 0 ==> !IsSpace(t[0])
    ensures SkipSpace(t) == t
  {
  }

  lemma {:induction false} SkipSpaceOfPadded(w: string, t: string)
    requires AllSpace(w)
    requires |t| > 0 ==> !IsSpace(t[0])
    ensures SkipSpace(w + t) == t
    decreases |w|
  {
    if |w| > 0 {
      assert (w + t)[1..] == w[1..] + t;
      SkipSpaceOfPadded(w[1..], t);
    } else {
      assert w + t == t;
    }
  }

  lemma {:induction false} TokenLengthOf(t: string, rest: string)
    requires forall i :: 0 <= i < |t| ==> !IsSpace(t[i])
    requires |rest| > 0 ==> IsSpace(rest[0])
    ensures TokenLength(t + rest) == |t|
    decreases |t|
  {
    if |t| > 0 {
      assert (t + rest)[1..] == t[1..] + rest;
      TokenLengthOf(t[1..], rest);
    } else {
      assert t + rest == rest;
    }
  }

  /** The first awk token of `w + t + rest` is `t` when `w` is blank and `rest` starts at a blank. */
  lemma {:induction false} AwkFirstOf(w: string, t: string, rest: string)
    requires AllSpace(w)
    requires |t| > 0 && forall i :: 0 <= i < |t| ==> !IsSpace(t[i])
    requires |rest| > 0 ==> IsSpace(rest[0])
    ensures AwkFirst(w + t + rest) == Some(t)
  {
    assert w + t + rest == w + (t + rest);
    SkipSpaceOfPadded(w, t + rest);
    TokenLengthOf(t, rest);
    assert (t + rest)[..|t|] == t;
  }

  // ---------------------------------------------------------------------------
  // join and split("\n")

  /** `Array#join(sep)`. */
  function Join(parts: seq<string>, sep: string): string
    decreases |parts|
  {
    if |parts| == 0 then ""
    else if |parts| == 1 then parts[0]
    else parts[0] + sep + Join(parts[1..], sep)
  }

  lemma {:induction false} JoinAppend(parts: seq<string>, last: string, sep: string)
    requires |parts| > 0
    ensures Join(parts + [last], sep) == Join(parts, sep) + sep + last
    decreases |parts|
  {
    if |parts| == 1 {
      assert parts + [last] == [parts[0], last];
    } else {
      assert (parts + [last])[1..] == parts[1..] + [last];
      JoinAppend(parts[1..], last, sep);
    }
  }

  /** A join starts with the first part and ends with the last one. */
  /** Joining two non-empty lists of parts puts one separator between their joins. */
  lemma {:induction false} JoinConcat(x: seq<string>, y: seq<string>, sep: string)
    requires |x| > 0 && |y| > 0
    ensures Join(x + y, sep) == Join(x, sep) + sep + Join(y, sep)
    decreases |x|
  {
    if |x| == 1 {
      assert (x + y)[1..] == y;
    } else {
      JoinConcat(x[1..], y, sep);
      assert (x + y)[1..] == x[1..] + y;
    }
  }

  lemma {:induction false} JoinEnds(parts: seq<string>, sep: string)
    requires |parts| > 0
    ensures |parts[0]| <= |Join(parts, sep)| && Join(parts, sep)[..|parts[0]|] == parts[0]
    ensures var last := parts[|parts| - 1]; var j := Join(parts, sep);
            |last| <= |j| && j[|j| - |last|..] == last
    decreases |parts|
  {
    if |parts| > 1 {
      var rest := Join(parts[1..], sep);
      JoinEnds(parts[1..], sep);
      assert parts[1..][|parts[1..]| - 1] == parts[|parts| - 1];
      var j := parts[0] + (sep + rest);
      assert Join(parts, sep) == j;
      assert j[..|parts[0]|] == parts[0];
      var last := parts[|parts| - 1];
      assert j[|j| - |last|..] == rest[|rest| - |last|..];
    }
  }

  /** A character absent from every part and from the separator is absent from the join. */
  lemma {:induction false} JoinAvoids(parts: seq<string>, sep: string, c: char)
    requires forall i :: 0 <= i < |parts| ==> c !in parts[i]
    requires c !in sep
    ensures c !in Join(parts, sep)
    decreases |parts|
  {
    if |parts| > 1 {
      JoinAvoids(parts[1..], sep, c);
    }
  }

  /** A join is unpadded when its first part starts, and its last part ends, with a non-blank. */
  lemma {:induction false} JoinUnpadded(parts: seq<string>, sep: string)
    requires |parts| > 0
    requires |parts[0]| > 0 && !IsStripSpace(parts[0][0])
    requires var last := parts[|parts| - 1]; |last| > 0 && !IsStripSpace(last[|last| - 1])
    ensures Unpadded(Join(parts, sep))
  {
    JoinEnds(parts, sep);
    var j := Join(parts, sep);
    var last := parts[|parts| - 1];
    assert j[0] == j[..|parts[0]|][0];
    assert j[|j| - 1] == j[|j| - |last|..][|last| - 1];
  }

  /** Every newline-separated field of `s`, empty ones included. */
  function Fields(s: string): (r: seq<string>)
    ensures |r| > 0
    ensures forall i :: 0 <= i < |r| ==> '\n' !in r[i]
    ensures Join(r, "\n") == s
    decreases |s|
  {
    match FindFrom(s, "\n", 0)
    case None =>
      assert forall k :: 0 <= k < |s| ==> !IsAt(s, "\n", k) ==> s[k] != '\n';
      [s]
    case Some(i) =>
      var rest := Fields(s[i + 1..]);
      assert forall k :: 0 <= k < i ==> !IsAt(s, "\n", k) ==> s[k] != '\n';
      assert s == s[..i] + "\n" + s[i + 1..];
      [s[..i]] + rest
  }

  lemma {:induction false} FieldsSingle(x: string)
    requires '\n' !in x
    ensures Fields(x) == [x]
  {
    forall k | 0 <= k
      ensures !IsAt(x, "\n", k)
    {
      IsAtFirstChar(x, "\n", k);
    }
  }

  lemma {:induction false} FieldsCons(x: string, rest: string)
    requires '\n' !in x
    ensures Fields(x + "\n" + rest) == [x] + Fields(rest)
  {
    var s := x + "\n" + rest;
    assert s == x + ("\n" + rest);
    FindFromSkips(x, "\n" + rest, "\n", 0);
    assert IsAt("\n" + rest, "\n", 0);
    assert FindFrom(s, "\n", 0) == Some(|x|);
    assert s[..|x|] == x;
    assert s[|x| + 1..] == rest;
  }

  lemma {:induction false} FieldsOfJoin(parts: seq<string>)
    requires |parts| > 0
    requires forall i :: 0 <= i < |parts| ==> '\n' !in parts[i]
    ensures Fields(Join(parts, "\n")) == parts
    decreases |parts|
  {
    if |parts| == 1 {
      FieldsSingle(parts[0]);
    } else {
      FieldsCons(parts[0], Join(parts[1..], "\n"));
      FieldsOfJoin(parts[1..]);
    }
  }

  /** The fields with the trailing empty ones removed. */
  function DropTrailingEmpty(fields: seq<string>): (r: seq<string>)
    ensures |r| <= |fields| && r == fields[..|r|]
    ensures forall i :: |r| <= i < |fields| ==> fields[i] == []
    ensures |r| > 0 ==> r[|r| - 1] != []
  {
    if |fields| > 0 && fields[|fields| - 1] == [] then DropTrailingEmpty(fields[..|fields| - 1])
    else fields
  }

  predicate AllNewlines(s: string) {
    forall i :: 0 <= i < |s| ==> s[i] == '\n'
  }

  /** Dropping trailing empty fields removes only trailing newlines from the joined text. */
  lemma {:induction false} JoinDropTrailingEmpty(fields: seq<string>)
    requires |fields| > 0
    ensures exists nl :: AllNewlines(nl) && Join(DropTrailingEmpty(fields), "\n") + nl == Join(fields, "\n")
    decreases |fields|
  {
    var n := |fields|;
    if fields[n - 1] == [] {
      var front := fields[..n - 1];
      assert DropTrailingEmpty(fields) == DropTrailingEmpty(front);
      if n == 1 {
        assert DropTrailingEmpty(front) == [];
        assert Join(fields, "\n") == "";
        assert AllNewlines("") && Join([], "\n") + "" == "";
      } else {
        JoinDropTrailingEmpty(front);
        var nl :| AllNewlines(nl) && Join(DropTrailingEmpty(front), "\n") + nl == Join(front, "\n");
        assert fields == front + [""];
        JoinAppend(front, "", "\n");
        assert Join(fields, "\n") == Join(front, "\n") + "\n";
        assert AllNewlines(nl + "\n");
        assert Join(DropTrailingEmpty(fields), "\n") + (nl + "\n") == Join(fields, "\n");
      }
    } else {
      assert AllNewlines("") && Join(fields, "\n") + "" == Join(fields, "\n");
    }
  }

  /** `s.split("\n")`: the newline-separated lines of `s`, trailing empty lines
      dropped, so that the empty string has no lines at all. */
  function Lines(s: string): (r: seq<string>)
    ensures forall i :: 0 <= i < |r| ==> '\n' !in r[i]
    ensures |r| > 0 ==> r[|r| - 1] != []
    ensures exists nl :: AllNewlines(nl) && Join(r, "\n") + nl == s
  {
    var fs := Fields(s);
    JoinDropTrailingEmpty(fs);
    DropTrailingEmpty(fs)
  }

  /** Splitting joined lines gives the lines back, when none holds a newline and the last is not empty. */
  lemma {:induction false} LinesOfJoin(parts: seq<string>)
    requires forall i :: 0 <= i < |parts| ==> '\n' !in parts[i]
    requires |parts| > 0 ==> parts[|parts| - 1] != []
    ensures Lines(Join(parts, "\n")) == parts
  {
    if |parts| == 0 {
      assert FindFrom("", "\n", 0).None?;
    } else {
      FieldsOfJoin(parts);
    }
  }
}
