/** The panel statistics of forecast_stats.rb: the median of the
    forecasters' probabilities for a binary question, and one median per
    option for a multiple-choice question.

    The median is the mean of the sorted values at the floor and at the
    ceiling of `(n - 1) / 2.0`. For an empty panel both positions hold nil
    and the addition raises. */
module PanelStats {
  import opened Wrappers
  import opened Sorting
  import opened OrderedMap

  /** `array[i]`: a negative index counts from the end, anything out of range is nil. */
  function At<T>(s: seq<T>, i: int): (r: Option<T>)
    ensures r.Some? <==> -|s| <= i < |s|
    ensures 0 <= i < |s| ==> r == Some(s[i])
    ensures -|s| <= i < 0 ==> r == Some(s[|s| + i])
  {
    if 0 <= i < |s| then Some(s[i])
    else if -|s| <= i < 0 then Some(s[|s| + i])
    else None
  }

  /** `((n - 1) / 2.0).floor` */
  function MidFloor(n: nat): int {
    ((n as real - 1.0) / 2.0).Floor
  }

  /** `((n - 1) / 2.0).ceil` */
  function MidCeil(n: nat): int {
    -((1.0 - n as real) / 2.0).Floor
  }

  /** The two middle positions: both the middle for odd `n`, the two
      middle ones for even `n`, and -1 and 0 for an empty panel. */
  lemma {:induction false} MidPoints(n: nat)
    ensures n > 0 ==> MidFloor(n) == (n - 1) / 2 && MidCeil(n) == n / 2
    ensures n == 0 ==> MidFloor(n) == -1 && MidCeil(n) == 0
  {
    if n > 0 {
      var q := (n - 1) / 2;
      if n % 2 == 1 {
        assert n as real - 1.0 == 2.0 * q as real;
        assert (1.0 - n as real) / 2.0 == -q as real;
      } else {
        assert n as real - 1.0 == 2.0 * q as real + 1.0;
        assert (1.0 - n as real) / 2.0 == -(q + 1) as real + 0.5;
      }
    }
  }

  /** The two positions the median reads, as `MidPoints` states them. */
  function MidPositions(n: nat): (r: (int, int))
    ensures n > 0 ==> r == ((n - 1) / 2, n / 2)
    ensures n == 0 ==> r == (-1, 0)
  {
    MidPoints(n);
    (MidFloor(n), MidCeil(n))
  }

  /** The panel median of `values`. */
  function Median(values: seq<real>): (r: Result<real>)
    ensures r.Failure? <==> |values| == 0
  {
    MedianOfSorted(Sort(values))
  }

  /** The median as computed on the already sorted values. */
  function MedianOfSorted(sorted: seq<real>): (r: Result<real>)
    ensures r.Failure? <==> |sorted| == 0
  {
    var mid := MidPositions(|sorted|);
    match At(sorted, mid.0)
    case None => Failure(NoMethodOnNil("+"))
    case Some(a) =>
      match At(sorted, mid.1)
      case None => Failure(TypeError("nil can't be coerced into Float"))
      case Some(b) => Success((a + b) / 2.0)
  }

  /** An odd panel's median is its middle forecast. */
  lemma {:induction false} MedianOdd(values: seq<real>)
    requires |values| % 2 == 1
    ensures Median(values) == Success(Sort(values)[(|values| - 1) / 2])
  {
    var s := Sort(values);
    var m := (|values| - 1) / 2;
    assert m == |values| / 2;
    assert MedianOfSorted(s) == Success((s[m] + s[m]) / 2.0);
  }

  /** An even panel's median is the mean of its two middle forecasts. */
  lemma {:induction false} MedianEven(values: seq<real>)
    requires |values| > 0 && |values| % 2 == 0
    ensures var s := Sort(values);
            Median(values) == Success((s[|values| / 2 - 1] + s[|values| / 2]) / 2.0)
  {
    var s := Sort(values);
    assert (|values| - 1) / 2 == |values| / 2 - 1;
    assert MedianOfSorted(s) == Success((s[|values| / 2 - 1] + s[|values| / 2]) / 2.0);
  }

  /** Bounds on every forecast bound the median; in particular it lies
      between the lowest and the highest forecast. */
  lemma {:induction false} MedianBetween(values: seq<real>, lo: real, hi: real)
    requires |values| > 0
    requires forall k :: 0 <= k < |values| ==> lo <= values[k] <= hi
    ensures Median(values).Success?
    ensures lo <= Median(values).value <= hi
  {
    var s := Sort(values);
    var n := |values|;
    ElementOfPermutation(values, s, (n - 1) / 2);
    ElementOfPermutation(values, s, n / 2);
  }

  /** The median does not depend on the order of the forecasts. */
  lemma {:induction false} MedianOrderFree(a: seq<real>, b: seq<real>)
    requires multiset(a) == multiset(b)
    ensures Median(a) == Median(b)
  {
    SortOrderFree(a, b);
  }

  // ---------------------------------------------------------------------------
  // binary questions

  datatype Stats = Stats(count: nat, median: real)

  /** The binary case: the number of forecasts and their median. */
  function BinaryStats(probabilities: seq<real>): (r: Result<Stats>)
    ensures r.Success? <==> |probabilities| > 0
    ensures r.Success? ==> r.value.count == |probabilities|
    ensures r.Success? ==> Median(probabilities) == Success(r.value.median)
  {
    var median :- Median(probabilities);
    Success(Stats(|probabilities|, median))
  }

  // ---------------------------------------------------------------------------
  // multiple-choice questions

  /** Every forecast gives `key` a probability. */
  predicate AllHave(forecasts: seq<OMap<string, real>>, key: string) {
    forall j :: 0 <= j < |forecasts| ==> key in Keys(forecasts[j])
  }

  /** `forecasts.map { |f| f[key] }`, raising on the first forecast lacking `key`. */
  function Column(forecasts: seq<OMap<string, real>>, key: string): (r: Result<seq<real>>)
    ensures r.Success? <==> AllHave(forecasts, key)
    ensures r.Success? ==> |r.value| == |forecasts|
    ensures r.Success? ==> forall j :: 0 <= j < |forecasts| ==> Get(forecasts[j], key) == Some(r.value[j])
  {
    if |forecasts| == 0 then Success([])
    else
      match Get(forecasts[0], key)
      case None => Failure(NoMethodOnNil("round"))
      case Some(v) =>
        var rest := Column(forecasts[1..], key);
        assert AllHave(forecasts, key) <==> AllHave(forecasts[1..], key) by {
          if AllHave(forecasts[1..], key) {
            forall j | 0 <= j < |forecasts| ensures key in Keys(forecasts[j]) {
              if j > 0 {
                assert forecasts[j] == forecasts[1..][j - 1];
              }
            }
          }
        }
        match rest
        case Failure(e) => Failure(e)
        case Success(vs) =>
          assert forall j :: 0 < j < |forecasts| ==> forecasts[j] == forecasts[1..][j - 1];
          Success([v] + vs)
  }

  datatype KeyStats = KeyStats(key: string, count: nat, median: real)

  /** Every forecast gives every one of `keys` a probability. */
  predicate AllHaveEach(forecasts: seq<OMap<string, real>>, keys: seq<string>) {
    forall i :: 0 <= i < |keys| ==> AllHave(forecasts, keys[i])
  }

  /** `line` is the statistics line for `key`: the key, the panel size and the median of its column. */
  predicate IsLineFor(forecasts: seq<OMap<string, real>>, key: string, line: KeyStats) {
    && line.key == key
    && line.count == |forecasts|
    && Column(forecasts, key).Success?
    && Median(Column(forecasts, key).value) == Success(line.median)
  }

  /** The statistics lines for `keys`, in order. */
  function KeyStatsFor(forecasts: seq<OMap<string, real>>, keys: seq<string>): (r: Result<seq<KeyStats>>)
    requires |forecasts| > 0
    ensures r.Success? <==> AllHaveEach(forecasts, keys)
    ensures r.Success? ==> |r.value| == |keys|
    ensures r.Success? ==> forall i :: 0 <= i < |keys| ==> IsLineFor(forecasts, keys[i], r.value[i])
    decreases |keys|
  {
    if |keys| == 0 then Success([])
    else
      AllHaveEachCons(forecasts, keys);
      var column :- Column(forecasts, keys[0]);
      var line := KeyStats(keys[0], |forecasts|, Median(column).value);
      var rest := KeyStatsFor(forecasts, keys[1..]);
      match rest
      case Failure(e) => Failure(e)
      case Success(tail) =>
        LinesCons(forecasts, keys, line, tail);
        Success([line] + tail)
  }

  lemma {:induction false} AllHaveEachCons(forecasts: seq<OMap<string, real>>, keys: seq<string>)
    requires |keys| > 0
    ensures AllHaveEach(forecasts, keys) <==> AllHave(forecasts, keys[0]) && AllHaveEach(forecasts, keys[1..])
  {
    if AllHave(forecasts, keys[0]) && AllHaveEach(forecasts, keys[1..]) {
      forall i | 0 < i < |keys| ensures AllHave(forecasts, keys[i]) {
        assert keys[i] == keys[1..][i - 1];
      }
    }
  }

  lemma {:induction false} LinesCons(forecasts: seq<OMap<string, real>>, keys: seq<string>, line: KeyStats, tail: seq<KeyStats>)
    requires |keys| == |tail| + 1
    requires IsLineFor(forecasts, keys[0], line)
    requires forall i :: 0 <= i < |tail| ==> IsLineFor(forecasts, keys[1..][i], tail[i])
    ensures forall i :: 0 <= i < |keys| ==> IsLineFor(forecasts, keys[i], ([line] + tail)[i])
  {
    forall i | 0 < i < |keys| ensures IsLineFor(forecasts, keys[i], ([line] + tail)[i]) {
      assert keys[i] == keys[1..][i - 1];
      assert ([line] + tail)[i] == tail[i - 1];
    }
  }

  /** The multiple-choice case: one line per option of the first forecast,
      in that forecast's order. */
  function ChoiceStats(forecasts: seq<OMap<string, real>>): (r: Result<seq<KeyStats>>)
    ensures r.Success? <==> |forecasts| > 0 && AllHaveEach(forecasts, Keys(forecasts[0]))
    ensures r.Success? ==> |r.value| == |forecasts[0]|
    ensures r.Success? ==> forall i :: 0 <= i < |r.value| ==>
              r.value[i].key == forecasts[0][i].0 && r.value[i].count == |forecasts|
  {
    if |forecasts| == 0 then Failure(NoMethodOnNil("each_key"))
    else KeyStatsFor(forecasts, Keys(forecasts[0]))
  }

  /** A column reads only each forecast's value for its own key. */
  lemma {:induction false} ColumnSame(fs: seq<OMap<string, real>>, gs: seq<OMap<string, real>>, key: string)
    requires |fs| == |gs|
    requires forall j :: 0 <= j < |fs| ==> Get(fs[j], key) == Get(gs[j], key)
    ensures Column(fs, key) == Column(gs, key)
    decreases |fs|
  {
    if |fs| > 0 {
      assert Get(fs[0], key) == Get(gs[0], key);
      forall j | 0 <= j < |fs[1..]| ensures Get(fs[1..][j], key) == Get(gs[1..][j], key) {
        assert fs[1..][j] == fs[j + 1] && gs[1..][j] == gs[j + 1];
      }
      ColumnSame(fs[1..], gs[1..], key);
    }
  }

  lemma {:induction false} KeyStatsSame(fs: seq<OMap<string, real>>, gs: seq<OMap<string, real>>, keys: seq<string>)
    requires |fs| == |gs| > 0
    requires forall i, j :: 0 <= i < |keys| && 0 <= j < |fs| ==> Get(fs[j], keys[i]) == Get(gs[j], keys[i])
    ensures KeyStatsFor(fs, keys) == KeyStatsFor(gs, keys)
    decreases |keys|
  {
    if |keys| > 0 {
      ColumnSame(fs, gs, keys[0]);
      forall i, j | 0 <= i < |keys[1..]| && 0 <= j < |fs| ensures Get(fs[j], keys[1..][i]) == Get(gs[j], keys[1..][i]) {
        assert keys[1..][i] == keys[i + 1];
      }
      KeyStatsSame(fs, gs, keys[1..]);
    }
  }

  /** Options a later forecast adds beyond the first forecast's are ignored:
      two panels that agree on the first forecast's options have the same
      statistics. */
  lemma {:induction false} ChoiceStatsIgnoresExtraKeys(fs: seq<OMap<string, real>>, gs: seq<OMap<string, real>>)
    requires |fs| == |gs| > 0
    requires Keys(fs[0]) == Keys(gs[0])
    requires forall j, k :: 0 <= j < |fs| && k in Keys(fs[0]) ==> Get(fs[j], k) == Get(gs[j], k)
    ensures ChoiceStats(fs) == ChoiceStats(gs)
  {
    var keys := Keys(fs[0]);
    forall i, j | 0 <= i < |keys| && 0 <= j < |fs| ensures Get(fs[j], keys[i]) == Get(gs[j], keys[i]) {
      assert keys[i] in Keys(fs[0]);
    }
    KeyStatsSame(fs, gs, keys);
  }
}
