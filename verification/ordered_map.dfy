/** Ruby's `Hash` as the parsers use it: key/value pairs kept in insertion
    order, each key at most once. Assigning to a present key overwrites its
    value where it stands; assigning to a new key appends it. */
module OrderedMap {
  import opened Wrappers

  type OMap<K, V> = seq<(K, V)>

  function Keys<K, V>(m: OMap<K, V>): (ks: seq<K>)
    ensures |ks| == |m|
    ensures forall i :: 0 <= i < |m| ==> ks[i] == m[i].0
  {
    seq(|m|, i requires 0 <= i < |m| => m[i].0)
  }

  /** No key occurs twice. */
  predicate Valid<K(==), V>(m: OMap<K, V>) {
    forall i, j :: 0 <= i < j < |m| ==> m[i].0 != m[j].0
  }

  /** The first position of `k` in `ks`. */
  function IndexOf<K(==)>(ks: seq<K>, k: K): (r: Option<nat>)
    ensures r.None? <==> k !in ks
    ensures r.Some? ==> r.value < |ks| && ks[r.value] == k
    ensures r.Some? ==> forall i :: 0 <= i < r.value ==> ks[i] != k
  {
    if |ks| == 0 then None
    else if ks[0] == k then Some(0)
    else match IndexOf(ks[1..], k)
      case None => None
      case Some(i) => Some(i + 1)
  }

  /** `hash[k]`: the value stored under `k`, nil when absent. */
  function Get<K(==), V>(m: OMap<K, V>, k: K): (r: Option<V>)
    ensures r.None? <==> k !in Keys(m)
    ensures r.Some? ==> (k, r.value) in m
  {
    match IndexOf(Keys(m), k)
    case None => None
    case Some(i) => Some(m[i].1)
  }

  /** In a valid map every stored pair is what a lookup of its key finds. */
  lemma {:induction false} GetAt<K, V>(m: OMap<K, V>, i: nat)
    requires Valid(m) && i < |m|
    ensures Get(m, m[i].0) == Some(m[i].1)
  {
    assert Keys(m)[i] == m[i].0;
  }

  lemma {:induction false} IndexOfAppend<K>(ks: seq<K>, k: K, k': K)
    requires k' != k
    ensures IndexOf(ks + [k], k') == IndexOf(ks, k')
  {
    var a := IndexOf(ks, k');
    var b := IndexOf(ks + [k], k');
    if a.Some? {
      assert (ks + [k])[a.value] == k';
    }
    if b.Some? {
      assert ks[b.value] == k';
    }
  }

  /** `hash[k] = v`. */
  function Put<K(==,!new), V>(m: OMap<K, V>, k: K, v: V): (r: OMap<K, V>)
    requires Valid(m)
    ensures Valid(r)
    ensures k !in Keys(m) ==> r == m + [(k, v)]
    ensures k in Keys(m) ==> Keys(r) == Keys(m)
    ensures Get(r, k) == Some(v)
    ensures forall k' :: k' != k ==> Get(r, k') == Get(m, k')
  {
    match IndexOf(Keys(m), k)
    case None =>
      var r := m + [(k, v)];
      assert Keys(r) == Keys(m) + [k];
      assert forall i :: 0 <= i < |m| ==> m[i].0 != k;
      forall k' | k' != k
        ensures Get(r, k') == Get(m, k')
      {
        IndexOfAppend(Keys(m), k, k');
      }
      r
    case Some(i) =>
      var r := m[i := (k, v)];
      assert Keys(r) == Keys(m);
      r
  }

  /** Storing pairs one after another, as a parsing loop does. */
  function PutAll<K(==,!new), V>(m: OMap<K, V>, pairs: seq<(K, V)>): (r: OMap<K, V>)
    requires Valid(m)
    ensures Valid(r)
    decreases |pairs|
  {
    if |pairs| == 0 then m else PutAll(Put(m, pairs[0].0, pairs[0].1), pairs[1..])
  }

  lemma {:induction false} AppendCons<T>(m: seq<T>, s: seq<T>)
    requires |s| > 0
    ensures (m + [s[0]]) + s[1..] == m + s
  {
    assert [s[0]] + s[1..] == s;
  }

  /** Pairs with distinct keys, none already present, are appended in order. */
  lemma {:induction false} PutAllFresh<K(!new), V>(m: OMap<K, V>, pairs: seq<(K, V)>)
    requires Valid(m) && Valid(pairs)
    requires forall i :: 0 <= i < |pairs| ==> pairs[i].0 !in Keys(m)
    ensures PutAll(m, pairs) == m + pairs
    decreases |pairs|
  {
    if |pairs| > 0 {
      var p := pairs[0];
      var rest := pairs[1..];
      var m' := Put(m, p.0, p.1);
      assert m' == m + [p];
      assert Keys(m') == Keys(m) + [p.0];
      assert Valid(rest) by {
        forall i, j | 0 <= i < j < |rest| ensures rest[i].0 != rest[j].0 {
          assert rest[i] == pairs[i + 1] && rest[j] == pairs[j + 1];
        }
      }
      forall i | 0 <= i < |rest|
        ensures rest[i].0 !in Keys(m')
      {
        assert rest[i] == pairs[i + 1];
        assert rest[i].0 != p.0 && rest[i].0 !in Keys(m);
      }
      PutAllFresh(m', rest);
      AppendCons(m, pairs);
    }
  }

  // ---------------------------------------------------------------------------
  // a run of assignments: the last one for a key wins, keys stay in first-seen order

  /** The value of the last pair for `k`, nil when no pair has that key. */
  function LastValue<K(==), V>(ps: seq<(K, V)>, k: K): (r: Option<V>)
    ensures r.None? <==> k !in Keys(ps)
    decreases |ps|
  {
    if |ps| == 0 then None
    else
      var init := ps[..|ps| - 1];
      assert forall i :: 0 <= i < |init| ==> init[i] == ps[i];
      if ps[|ps| - 1].0 == k then Some(ps[|ps| - 1].1)
      else
        assert Keys(ps) == Keys(init) + [ps[|ps| - 1].0];
        LastValue(init, k)
  }

  /** A pair that no later pair overrides is the last value for its key. */
  lemma {:induction false} LastValueAt<K, V>(ps: seq<(K, V)>, i: nat)
    requires i < |ps|
    requires forall j :: i < j < |ps| ==> ps[j].0 != ps[i].0
    ensures LastValue(ps, ps[i].0) == Some(ps[i].1)
    decreases |ps|
  {
    if i < |ps| - 1 {
      var init := ps[..|ps| - 1];
      assert init[i] == ps[i];
      forall j | i < j < |init| ensures init[j].0 != init[i].0 {
        assert init[j] == ps[j];
      }
      LastValueAt(init, i);
    }
  }

  /** The keys of `ks` in order of first appearance, each once. */
  function FirstSeen<K(==,!new)>(ks: seq<K>): (r: seq<K>)
    ensures forall k :: k in r <==> k in ks
    ensures forall i, j :: 0 <= i < j < |r| ==> r[i] != r[j]
    decreases |ks|
  {
    if |ks| == 0 then []
    else
      var init := ks[..|ks| - 1];
      var x := ks[|ks| - 1];
      assert ks == init + [x];
      var d := FirstSeen(init);
      if x in d then d else d + [x]
  }

  /** `FirstSeen` lists the keys in the order of their first occurrence. */
  lemma {:induction false} FirstSeenOrder<K(!new)>(ks: seq<K>)
    ensures var r := FirstSeen(ks);
            forall i, j :: 0 <= i < j < |r| ==> FirstIndex(ks, r[i]) < FirstIndex(ks, r[j])
    decreases |ks|
  {
    if |ks| > 0 {
      var init := ks[..|ks| - 1];
      var x := ks[|ks| - 1];
      assert ks == init + [x];
      FirstSeenOrder(init);
      FirstSeenSnoc(init, x);
      var d := FirstSeen(init);
      var r := FirstSeen(ks);
      forall i, j | 0 <= i < j < |r| ensures FirstIndex(ks, r[i]) < FirstIndex(ks, r[j]) {
        assert r[i] == d[i] && d[i] in init;
        IndexOfPrefix(init, [x], d[i]);
        if j < |d| {
          assert r[j] == d[j] && d[j] in init;
          IndexOfPrefix(init, [x], d[j]);
        } else {
          assert r[j] == x && x !in init;
          IndexOfLast(init, x);
        }
      }
    }
  }

  /** The first position of a key known to occur. */
  function FirstIndex<K(==)>(ks: seq<K>, k: K): nat
  {
    match IndexOf(ks, k)
    case None => |ks|
    case Some(i) => i
  }

  lemma {:induction false} IndexOfPrefix<K>(a: seq<K>, b: seq<K>, k: K)
    requires k in a
    ensures IndexOf(a + b, k) == IndexOf(a, k)
  {
    assert forall t :: 0 <= t < |a| ==> (a + b)[t] == a[t];
  }

  lemma {:induction false} IndexOfLast<K>(a: seq<K>, k: K)
    requires k !in a
    ensures IndexOf(a + [k], k) == Some(|a|)
  {
    assert (a + [k])[|a|] == k;
    assert forall t :: 0 <= t < |a| ==> (a + [k])[t] == a[t];
  }

  /** `FirstSeen` of one more key: the key is added unless already seen. */
  lemma {:induction false} FirstSeenSnoc<K(!new)>(init: seq<K>, x: K)
    ensures FirstSeen(init + [x]) == if x in FirstSeen(init) then FirstSeen(init) else FirstSeen(init) + [x]
  {
    var ks := init + [x];
    assert ks[..|ks| - 1] == init;
    assert ks[|ks| - 1] == x;
  }

  /** Keys without repeats are their own first-seen order. */
  lemma {:induction false} FirstSeenOfDistinct<K(!new)>(ks: seq<K>)
    requires forall i, j :: 0 <= i < j < |ks| ==> ks[i] != ks[j]
    ensures FirstSeen(ks) == ks
    decreases |ks|
  {
    if |ks| > 0 {
      var init := ks[..|ks| - 1];
      var x := ks[|ks| - 1];
      assert ks == init + [x];
      assert x !in init;
      FirstSeenOfDistinct(init);
      FirstSeenSnoc(init, x);
    }
  }

  /** Storing one more pair after a run is one more `Put`. */
  lemma {:induction false} PutAllSnoc<K(!new), V>(m: OMap<K, V>, ps: seq<(K, V)>, k: K, v: V)
    requires Valid(m)
    ensures PutAll(m, ps + [(k, v)]) == Put(PutAll(m, ps), k, v)
    decreases |ps|
  {
    if |ps| == 0 {
      assert ps + [(k, v)] == [(k, v)];
    } else {
      assert (ps + [(k, v)])[0] == ps[0];
      assert (ps + [(k, v)])[1..] == ps[1..] + [(k, v)];
      PutAllSnoc(Put(m, ps[0].0, ps[0].1), ps[1..], k, v);
    }
  }

  /** After a run of assignments the keys are the old ones followed by the
      new ones in the order they first appear. */
  lemma {:induction false} PutAllKeys<K(!new), V>(m: OMap<K, V>, ps: seq<(K, V)>)
    requires Valid(m)
    ensures Keys(PutAll(m, ps)) == FirstSeen(Keys(m) + Keys(ps))
    decreases |ps|
  {
    if |ps| == 0 {
      assert Keys(m) + Keys(ps) == Keys(m);
      KeysDistinct(m);
      FirstSeenOfDistinct(Keys(m));
    } else {
      var init := ps[..|ps| - 1];
      var p := ps[|ps| - 1];
      PutAllKeys(m, init);
      KeysStep(PutAll(m, init), Keys(m) + Keys(init), p.0, p.1);
      assert ps == init + [p];
      PutAllSnoc(m, init, p.0, p.1);
      KeysSnoc(Keys(m), init, p);
    }
  }

  lemma {:induction false} KeysDistinct<K, V>(m: OMap<K, V>)
    requires Valid(m)
    ensures forall i, j :: 0 <= i < j < |Keys(m)| ==> Keys(m)[i] != Keys(m)[j]
  {
  }

  lemma {:induction false} KeysSnoc<K, V>(ks: seq<K>, init: seq<(K, V)>, p: (K, V))
    ensures ks + Keys(init + [p]) == (ks + Keys(init)) + [p.0]
  {
    assert Keys(init + [p]) == Keys(init) + [p.0];
  }

  lemma {:induction false} KeysStep<K(!new), V>(big: OMap<K, V>, ks: seq<K>, k: K, v: V)
    requires Valid(big) && Keys(big) == FirstSeen(ks)
    ensures Keys(Put(big, k, v)) == FirstSeen(ks + [k])
  {
    FirstSeenSnoc(ks, k);
    if k !in Keys(big) {
      assert Keys(Put(big, k, v)) == Keys(big) + [k];
    }
  }

  /** After a run of assignments a key reads as its last assigned value, or
      as its old one when the run never assigns it. */
  lemma {:induction false} PutAllGet<K(!new), V>(m: OMap<K, V>, ps: seq<(K, V)>, k: K)
    requires Valid(m)
    ensures Get(PutAll(m, ps), k) == if k in Keys(ps) then LastValue(ps, k) else Get(m, k)
    decreases |ps|
  {
    if |ps| > 0 {
      var init := ps[..|ps| - 1];
      var p := ps[|ps| - 1];
      PutAllGet(m, init, k);
      assert ps == init + [p];
      PutAllSnoc(m, init, p.0, p.1);
      LastValueSnoc(init, p, k);
    }
  }

  lemma {:induction false} LastValueSnoc<K, V>(init: seq<(K, V)>, p: (K, V), k: K)
    ensures k in Keys(init + [p]) <==> k == p.0 || k in Keys(init)
    ensures LastValue(init + [p], k) == if k == p.0 then Some(p.1) else LastValue(init, k)
  {
    var ps := init + [p];
    assert ps[..|ps| - 1] == init;
    assert Keys(ps) == Keys(init) + [p.0];
  }
}
