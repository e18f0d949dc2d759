/** What every store of the relay shares: byte strings, saturating subtraction, and sums over
    the entries of a table.  A redb table or a DashMap is a finite map; its running byte totals
    are claimed equal to `Sum`. */
module Tables {

  type byte = x: int | 0 <= x < 256
  type Bytes = seq<byte>

  datatype Option<+T> = None | Some(value: T)
  datatype Result<+T, +E> = Ok(value: T) | Err(error: E)

  /** `saturating_sub` on an unsigned counter. */
  function SatSub(a: nat, b: nat): (r: nat)
    ensures b <= a ==> r == a - b
    ensures a <= b ==> r == 0
  {
    if b <= a then a - b else 0
  }

  /** Plain subtraction on a 64-bit unsigned number wraps below zero. */
  function WrapSub(a: nat, b: nat): nat {
    if b <= a then a - b else SatSub(a + 0x1_0000_0000_0000_0000, b)
  }

  function Max(a: nat, b: nat): nat { if a < b then b else a }

  function Min(a: nat, b: nat): nat { if a < b then a else b }

  function Get<K, V>(m: map<K, V>, k: K): Option<V> {
    if k in m then Some(m[k]) else None
  }

  function Length(b: Bytes): nat { |b| }

  /** The weights of all entries of `m`, added up. */
  ghost function Sum<K(!new), V(!new)>(m: map<K, V>, weight: V -> nat): nat
    decreases |m|
  {
    if m == map[] then 0 else
      var k :| k in m;
      assert (m - {k}).Keys == m.Keys - {k};
      weight(m[k]) + Sum(m - {k}, weight)
  }

  /** The sum does not depend on the order in which entries are taken out. */
  lemma {:induction false} SumRemove<K(!new), V(!new)>(m: map<K, V>, weight: V -> nat, k: K)
    requires k in m
    ensures Sum(m, weight) == weight(m[k]) + Sum(m - {k}, weight)
    ensures |m - {k}| == |m| - 1
    decreases |m|
  {
    assert (m - {k}).Keys == m.Keys - {k};
    var j :| j in m && Sum(m, weight) == weight(m[j]) + Sum(m - {j}, weight);
    if j != k {
      assert (m - {j}).Keys == m.Keys - {j};
      SumRemove(m - {j}, weight, k);
      SumRemove(m - {k}, weight, j);
      assert m - {j} - {k} == m - {k} - {j};
    }
  }

  lemma SumUpdate<K(!new), V(!new)>(m: map<K, V>, weight: V -> nat, k: K, v: V)
    ensures k !in m ==> Sum(m[k := v], weight) == Sum(m, weight) + weight(v) && |m[k := v]| == |m| + 1
    ensures k in m ==> Sum(m[k := v], weight) == Sum(m, weight) - weight(m[k]) + weight(v) && |m[k := v]| == |m|
    ensures k in m ==> weight(m[k]) <= Sum(m, weight)
  {
    SumRemove(m[k := v], weight, k);
    if k in m {
      SumRemove(m, weight, k);
      assert m[k := v] - {k} == m - {k};
    } else {
      assert m[k := v] - {k} == m;
    }
  }

  /** A table weighs what a part of it and the rest weigh. */
  lemma {:induction false} SumSplit<K(!new), V(!new)>(m: map<K, V>, part: map<K, V>, weight: V -> nat)
    requires forall k :: k in part ==> k in m && part[k] == m[k]
    ensures Sum(m, weight) == Sum(part, weight) + Sum(m - part.Keys, weight)
    decreases |part|
  {
    if part == map[] {
      assert m - part.Keys == m;
    } else {
      var k :| k in part;
      SumRemove(m, weight, k);
      SumRemove(part, weight, k);
      SumSplit(m - {k}, part - {k}, weight);
      assert (m - {k}) - (part - {k}).Keys == m - part.Keys;
    }
  }

  /** Lighter entries under the same keys weigh no more. */
  lemma {:induction false} SumPointwise<K(!new), V(!new)>(light: map<K, V>, heavy: map<K, V>, weight: V -> nat)
    requires light.Keys == heavy.Keys && forall k :: k in light ==> weight(light[k]) <= weight(heavy[k])
    ensures Sum(light, weight) <= Sum(heavy, weight)
    decreases |light|
  {
    if light != map[] {
      var k :| k in light;
      SumRemove(light, weight, k);
      SumRemove(heavy, weight, k);
      SumPointwise(light - {k}, heavy - {k}, weight);
    }
  }

  /** Fewer entries weigh no more. */
  lemma {:induction false} SumMonotone<K(!new), V(!new)>(small: map<K, V>, large: map<K, V>, weight: V -> nat)
    requires forall k :: k in small ==> k in large && small[k] == large[k]
    ensures Sum(small, weight) <= Sum(large, weight)
    decreases |small|
  {
    if small != map[] {
      var k :| k in small;
      SumRemove(small, weight, k);
      SumRemove(large, weight, k);
      SumMonotone(small - {k}, large - {k}, weight);
    }
  }

  /** Scanning in any order: one more key of `pending` is seen. */
  lemma SeeOne<K, V>(m: map<K, V>, pending: set<K>, k: K)
    requires k in m && k in pending
    ensures (m - pending)[k := m[k]] == m - (pending - {k})
  {
  }

  /** Deleting in any order: one more key is gone. */
  lemma DropOne<K, V>(m: map<K, V>, gone: set<K>, k: K)
    ensures m - gone - {k} == m - (gone + {k})
  {
  }

  lemma DropNext<K, V>(m: map<K, V>, all: set<K>, pending: set<K>, k: K)
    requires k in pending && pending <= all
    ensures m - (all - pending) - {k} == m - (all - (pending - {k}))
  {
  }

  lemma MinusNothing<K, V>(m: map<K, V>)
    ensures m - {} == m && m - m.Keys == map[]
  {
  }

  lemma AllMinusNothing<K>(all: set<K>)
    ensures all - {} == all && all - all == {}
  {
  }

  lemma PutBack<K, V>(m: map<K, V>, k: K, v: V)
    requires k !in m
    ensures m[k := v] - {k} == m
  {
  }

  /** Working through a set in any order: one more element is done. */
  lemma SetMinusOne<K>(all: set<K>, pending: set<K>, k: K)
    requires pending <= all && k in pending
    ensures all - (pending - {k}) == all - pending + {k} && k !in all - pending
    ensures |all - (pending - {k})| == |all - pending| + 1
  {
    assert all - (pending - {k}) == all - pending + {k};
  }
}
