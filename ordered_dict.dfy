/** A Python `dict[str, str]` as the analyzer uses it for `contents`: the
    pairs in insertion order, where assigning to a present key replaces its
    value in place and assigning to a new key appends. */
module OrderedDict {
  import opened Wrappers

  type Dict = seq<(string, string)>

  function Keys(d: Dict): set<string> {
    if d == [] then {} else {d[0].0} + Keys(d[1..])
  }

  /** Every key occurs once. */
  predicate DistinctKeys(d: Dict) {
    d != [] ==> d[0].0 !in Keys(d[1..]) && DistinctKeys(d[1..])
  }

  /** `d.get(k)`. */
  function Get(d: Dict, k: string): (r: Option<string>)
    ensures r.Some? <==> k in Keys(d)
  {
    if d == [] then None
    else if d[0].0 == k then Some(d[0].1)
    else Get(d[1..], k)
  }

  /** `d[k] = v`. */
  function Put(d: Dict, k: string, v: string): (r: Dict)
    ensures Keys(r) == Keys(d) + {k}
    ensures Get(r, k) == Some(v)
    ensures forall k' :: k' != k ==> Get(r, k') == Get(d, k')
    ensures k !in Keys(d) ==> r == d + [(k, v)]
    ensures DistinctKeys(d) ==> DistinctKeys(r)
  {
    if d == [] then [(k, v)]
    else if d[0].0 == k then
      assert ([(k, v)] + d[1..])[1..] == d[1..];
      [(k, v)] + d[1..]
    else
      var r := [d[0]] + Put(d[1..], k, v);
      assert r[1..] == Put(d[1..], k, v);
      assert k !in Keys(d) ==> d + [(k, v)] == [d[0]] + (d[1..] + [(k, v)]);
      r
  }

  lemma {:induction false} KeysHas(d: Dict, i: nat)
    requires i < |d|
    ensures d[i].0 in Keys(d)
  {
    if i > 0 {
      KeysHas(d[1..], i - 1);
    }
  }

  /** Assigning to a present key replaces its value in place: every entry
      keeps its position, and only the key's own entry changes. */
  lemma {:induction false} PutInPlace(d: Dict, k: string, v: string)
    requires DistinctKeys(d) && k in Keys(d)
    ensures |Put(d, k, v)| == |d|
    ensures forall i :: 0 <= i < |d| ==> Put(d, k, v)[i] == if d[i].0 == k then (k, v) else d[i]
  {
    var r := Put(d, k, v);
    if d[0].0 == k {
      forall i | 0 < i < |d| ensures d[i].0 != k {
        assert d[1..][i - 1] == d[i];
        KeysHas(d[1..], i - 1);
      }
    } else {
      PutInPlace(d[1..], k, v);
      forall i | 0 < i < |d| ensures r[i] == if d[i].0 == k then (k, v) else d[i] {
        assert r[i] == Put(d[1..], k, v)[i - 1] && d[i] == d[1..][i - 1];
      }
    }
  }

  /** The assignments `d[k] = v` for each pair of `ps`, in order. */
  function PutAll(d: Dict, ps: Dict): Dict
    decreases |ps|
  {
    if ps == [] then d else PutAll(Put(d, ps[0].0, ps[0].1), ps[1..])
  }

  lemma {:induction false} PutAllAppend(d: Dict, a: Dict, b: Dict)
    ensures PutAll(d, a + b) == PutAll(PutAll(d, a), b)
    decreases |a|
  {
    if a == [] {
      assert a + b == b;
    } else {
      assert (a + b)[0] == a[0] && (a + b)[1..] == a[1..] + b;
      PutAllAppend(Put(d, a[0].0, a[0].1), a[1..], b);
    }
  }

  /** The keys after the assignments are the old keys and the assigned ones,
      and assignments keep the keys distinct. */
  lemma {:induction false} PutAllKeys(d: Dict, ps: Dict)
    ensures Keys(PutAll(d, ps)) == Keys(d) + Keys(ps)
    ensures DistinctKeys(d) ==> DistinctKeys(PutAll(d, ps))
    decreases |ps|
  {
    if ps != [] {
      PutAllKeys(Put(d, ps[0].0, ps[0].1), ps[1..]);
    }
  }

  /** Every assigned key maps to the value it was last assigned. */
  lemma {:induction false} PutAllLastWins(d: Dict, ps: Dict, k: string)
    ensures Get(PutAll(d, ps), k) == if k in Keys(ps) then Get(Reverse(ps), k) else Get(d, k)
    decreases |ps|
  {
    if ps != [] {
      PutAllLastWins(Put(d, ps[0].0, ps[0].1), ps[1..], k);
      ReverseCons(ps);
      GetAppend(Reverse(ps[1..]), [ps[0]], k);
    }
  }

  function Reverse(d: Dict): (r: Dict)
    ensures Keys(r) == Keys(d)
  {
    if d == [] then [] else
      KeysAppend(Reverse(d[1..]), [d[0]]);
      Reverse(d[1..]) + [d[0]]
  }

  lemma ReverseCons(d: Dict)
    requires d != []
    ensures Reverse(d) == Reverse(d[1..]) + [d[0]]
  {
  }

  lemma {:induction false} KeysAppend(a: Dict, b: Dict)
    ensures Keys(a + b) == Keys(a) + Keys(b)
  {
    if a == [] {
      assert a + b == b;
    } else {
      assert (a + b)[1..] == a[1..] + b;
      KeysAppend(a[1..], b);
    }
  }

  lemma {:induction false} GetAppend(a: Dict, b: Dict, k: string)
    ensures Get(a + b, k) == if k in Keys(a) then Get(a, k) else Get(b, k)
  {
    if a == [] {
      assert a + b == b;
    } else {
      assert (a + b)[1..] == a[1..] + b;
      GetAppend(a[1..], b, k);
    }
  }

  lemma FreshStep(d: Dict, ps: Dict)
    requires ps != [] && DistinctKeys(ps) && Keys(d) !! Keys(ps)
    ensures Put(d, ps[0].0, ps[0].1) == d + [ps[0]]
    ensures Keys(d + [ps[0]]) !! Keys(ps[1..])
  {
    KeysAppend(d, [ps[0]]);
    assert Keys(ps) == {ps[0].0} + Keys(ps[1..]);
    assert (ps[0].0, ps[0].1) == ps[0];
  }

  lemma ConsSplit(d: Dict, ps: Dict)
    requires ps != []
    ensures d + [ps[0]] + ps[1..] == d + ps
  {
    assert ps == [ps[0]] + ps[1..];
  }

  /** Assigning pairwise-distinct new keys appends the pairs in order. */
  lemma {:induction false} PutAllFresh(d: Dict, ps: Dict)
    requires DistinctKeys(ps) && Keys(d) !! Keys(ps)
    ensures PutAll(d, ps) == d + ps
    decreases |ps|
  {
    if ps == [] {
      assert d + ps == d;
    } else {
      FreshStep(d, ps);
      PutAllFresh(d + [ps[0]], ps[1..]);
      ConsSplit(d, ps);
    }
  }
}
