/** Small value types and map/set helpers shared by the rest of the model. */
module Collections {

  datatype Option<T> = None | Some(value: T)

  datatype Result<T, E> = Ok(value: T) | Err(error: E)

  /** The map built by inserting each key/value pair of `kvs` in turn, as
      `HashMap::insert` and `HashMap::from_iter` do: a later pair whose key
      is already present replaces the earlier value. */
  function Assoc<K, V>(kvs: seq<(K, V)>): (m: map<K, V>)
    ensures m.Keys == set i | 0 <= i < |kvs| :: kvs[i].0
  {
    if kvs == [] then map[]
    else
      var prefix := Assoc(kvs[..|kvs| - 1]);
      assert forall i | 0 <= i < |kvs| - 1 :: kvs[..|kvs| - 1][i] == kvs[i];
      prefix[kvs[|kvs| - 1].0 := kvs[|kvs| - 1].1]
  }

  /** Inserting one more pair is a map update. */
  lemma AssocSnoc<K, V>(kvs: seq<(K, V)>, kv: (K, V))
    ensures Assoc(kvs + [kv]) == Assoc(kvs)[kv.0 := kv.1]
  {
    assert (kvs + [kv])[..|kvs|] == kvs;
  }

  /** The value stored under a key is the one of the LAST pair with that key. */
  lemma {:induction false} AssocLastWins<K, V>(kvs: seq<(K, V)>, i: nat)
    requires i < |kvs|
    requires forall j | i < j < |kvs| :: kvs[j].0 != kvs[i].0
    ensures kvs[i].0 in Assoc(kvs) && Assoc(kvs)[kvs[i].0] == kvs[i].1
  {
    var n := |kvs| - 1;
    assert kvs == kvs[..n] + [kvs[n]];
    AssocSnoc(kvs[..n], kvs[n]);
    if i < n {
      AssocLastWins(kvs[..n], i);
    }
  }

  /** Every value of the map comes from some pair of the sequence. */
  lemma {:induction false} AssocValueFrom<K, V>(kvs: seq<(K, V)>, k: K)
    requires k in Assoc(kvs)
    ensures exists i | 0 <= i < |kvs| :: kvs[i].0 == k && kvs[i].1 == Assoc(kvs)[k]
  {
    var n := |kvs| - 1;
    assert kvs == kvs[..n] + [kvs[n]];
    AssocSnoc(kvs[..n], kvs[n]);
    if kvs[n].0 != k {
      AssocValueFrom(kvs[..n], k);
      var i :| 0 <= i < n && kvs[..n][i].0 == k && kvs[..n][i].1 == Assoc(kvs[..n])[k];
      assert kvs[i] == kvs[..n][i];
    }
  }

  /** Inserting the pairs of `a` and then those of `b` is the same as
      inserting the pairs of `a + b`. */
  lemma {:induction false} AssocAppend<K, V>(a: seq<(K, V)>, b: seq<(K, V)>)
    ensures Assoc(a + b) == Assoc(a) + Assoc(b)
  {
    if b != [] {
      var front, last := b[..|b| - 1], b[|b| - 1];
      assert a + b == (a + front) + [last];
      assert b == front + [last];
      AssocSnoc(a + front, last);
      AssocSnoc(front, last);
      AssocAppend(a, front);
      MergeUpdate(Assoc(a), Assoc(front), last.0, last.1);
    } else {
      assert a + b == a;
    }
  }

  lemma MergeUpdate<K, V>(m: map<K, V>, n: map<K, V>, k: K, v: V)
    ensures (m + n)[k := v] == m + n[k := v]
  {
  }

  /** Applies `f` to each element in order and collects the results,
      stopping at the first error, as collecting an iterator whose mapping
      panics does. */
  function MapAll<A, B, E>(xs: seq<A>, f: A -> Result<B, E>): (r: Result<seq<B>, E>)
    ensures r.Ok? ==> |r.value| == |xs|
  {
    if xs == [] then Ok([])
    else
      var first := f(xs[0]);
      if first.Err? then Err(first.error)
      else
        var rest := MapAll(xs[1..], f);
        if rest.Err? then Err(rest.error) else Ok([first.value] + rest.value)
  }

  /** The mapping succeeds exactly when every element does, and then holds
      each element's result at the element's position. */
  lemma {:induction false} MapAllOk<A, B, E>(xs: seq<A>, f: A -> Result<B, E>)
    ensures MapAll(xs, f).Ok? <==> forall i | 0 <= i < |xs| :: f(xs[i]).Ok?
    ensures MapAll(xs, f).Ok? ==> forall i | 0 <= i < |xs| :: f(xs[i]) == Ok(MapAll(xs, f).value[i])
  {
    if xs != [] {
      MapAllOk(xs[1..], f);
      assert forall i | 1 <= i < |xs| :: xs[1..][i - 1] == xs[i];
    }
  }

  /** A failing mapping reports the error of its first failing element. */
  lemma {:induction false} MapAllFirstError<A, B, E>(xs: seq<A>, f: A -> Result<B, E>)
    requires MapAll(xs, f).Err?
    ensures exists i | 0 <= i < |xs| ::
      f(xs[i]) == Err(MapAll(xs, f).error) && forall j | 0 <= j < i :: f(xs[j]).Ok?
  {
    if f(xs[0]).Ok? {
      MapAllFirstError(xs[1..], f);
      var k :| 0 <= k < |xs[1..]|
        && f(xs[1..][k]) == Err(MapAll(xs[1..], f).error)
        && forall j | 0 <= j < k :: f(xs[1..][j]).Ok?;
      assert forall j | 0 <= j < k :: xs[1..][j] == xs[j + 1];
      assert xs[1..][k] == xs[k + 1];
      assert forall j | 0 <= j < k + 1 :: f(xs[j]).Ok?;
    }
  }

  /** Some element of a non-empty set, fixed once and for all, so that the
      sums below are functions and lemmas can name the element they chose. */
  ghost function Pick<K>(s: set<K>): (k: K)
    requires s != {}
    ensures k in s
  {
    var k :| k in s; k
  }

  /** The sum of `f` over the values a map holds under `keys`, in no
      particular order: the model of folding over a `HashMap`. */
  ghost function SumOver<K, V>(m: map<K, V>, keys: set<K>, f: V -> nat): nat
    requires keys <= m.Keys
    decreases keys
  {
    if keys == {} then 0
    else
      var k := Pick(keys);
      f(m[k]) + SumOver(m, keys - {k}, f)
  }

  /** The order of the fold does not matter: any key can be taken out first. */
  lemma {:induction false} SumOverRemove<K, V>(m: map<K, V>, keys: set<K>, f: V -> nat, k: K)
    requires keys <= m.Keys && k in keys
    ensures SumOver(m, keys, f) == f(m[k]) + SumOver(m, keys - {k}, f)
    decreases keys
  {
    var p := Pick(keys);
    if p != k {
      SumOverRemove(m, keys - {p}, f, k);
      SumOverRemove(m, keys - {k}, f, p);
      assert keys - {p} - {k} == keys - {k} - {p};
    }
  }

  /** The multiset union of `f` over the values a map holds under `keys`. */
  ghost function UnionOver<K, V, T>(m: map<K, V>, keys: set<K>, f: V -> multiset<T>): multiset<T>
    requires keys <= m.Keys
    decreases keys
  {
    if keys == {} then multiset{}
    else
      var k := Pick(keys);
      f(m[k]) + UnionOver(m, keys - {k}, f)
  }

  lemma {:induction false} UnionOverRemove<K, V, T>(m: map<K, V>, keys: set<K>, f: V -> multiset<T>, k: K)
    requires keys <= m.Keys && k in keys
    ensures UnionOver(m, keys, f) == f(m[k]) + UnionOver(m, keys - {k}, f)
    decreases keys
  {
    var p := Pick(keys);
    if p != k {
      UnionOverRemove(m, keys - {p}, f, k);
      UnionOverRemove(m, keys - {k}, f, p);
      assert keys - {p} - {k} == keys - {k} - {p};
    }
  }

  /** Sums over maps that agree on the summed keys are equal. */
  lemma {:induction false} SumOverAgree<K, V>(m1: map<K, V>, m2: map<K, V>, keys: set<K>, f: V -> nat)
    requires keys <= m1.Keys && keys <= m2.Keys
    requires forall k | k in keys :: m1[k] == m2[k]
    ensures SumOver(m1, keys, f) == SumOver(m2, keys, f)
    decreases keys
  {
    if keys != {} {
      var k := Pick(keys);
      SumOverRemove(m2, keys, f, k);
      SumOverAgree(m1, m2, keys - {k}, f);
    }
  }

  /** Inserting a fresh key adds its value to the sum over all keys. */
  lemma SumOverInsert<K, V>(m: map<K, V>, k: K, v: V, f: V -> nat)
    requires k !in m
    ensures SumOver(m[k := v], m[k := v].Keys, f) == f(v) + SumOver(m, m.Keys, f)
  {
    var m' := m[k := v];
    SumOverRemove(m', m'.Keys, f, k);
    assert m'.Keys - {k} == m.Keys;
    SumOverAgree(m', m, m.Keys, f);
  }

  /** Unions over maps that agree on the united keys are equal. */
  lemma {:induction false} UnionOverAgree<K, V, T>(m1: map<K, V>, m2: map<K, V>, keys: set<K>, f: V -> multiset<T>)
    requires keys <= m1.Keys && keys <= m2.Keys
    requires forall k | k in keys :: m1[k] == m2[k]
    ensures UnionOver(m1, keys, f) == UnionOver(m2, keys, f)
    decreases keys
  {
    if keys != {} {
      var k := Pick(keys);
      UnionOverRemove(m2, keys, f, k);
      UnionOverAgree(m1, m2, keys - {k}, f);
    }
  }

  /** Distinct elements, as the keys of a map are when enumerated. */
  predicate NoDuplicates<T(==)>(s: seq<T>) {
    forall i, j | 0 <= i < j < |s| :: s[i] != s[j]
  }

  lemma NoDuplicatesSnoc<T>(s: seq<T>, x: T)
    requires NoDuplicates(s) && x !in s
    ensures NoDuplicates(s + [x])
  {
  }
}
