/** A frequency table with the behaviour of Python's `Counter`: a missing
    key counts as zero, and adding to a key creates it (even when the amount
    added is zero). */
module Counter {

  type Table = map<string, int>

  function Count(m: Table, key: string): int
  {
    if key in m then m[key] else 0
  }

  /** `m[key] += n` on a counter. */
  function Add(m: Table, key: string, n: int): (r: Table)
    ensures r.Keys == m.Keys + {key}
    ensures Count(r, key) == Count(m, key) + n
    ensures forall g :: g != key ==> Count(r, g) == Count(m, g)
  {
    m[key := Count(m, key) + n]
  }

  /** Sum of all counts of the table. */
  ghost function Total(m: Table): int
    decreases |m|
  {
    if m == map[] then 0
    else
      var k :| k in m;
      m[k] + Total(m - {k})
  }

  /** The total may be taken by removing any key first. */
  lemma {:induction false} TotalRemove(m: Table, key: string)
    requires key in m
    ensures Total(m) == m[key] + Total(m - {key})
    decreases |m|
  {
    var k :| k in m && Total(m) == m[k] + Total(m - {k});
    if k != key {
      var rest := m - {k};
      TotalRemove(rest, key);
      TotalRemove(m - {key}, k);
      assert rest - {key} == (m - {key}) - {k};
    }
  }

  /** Adding `n` to a key adds `n` to the total. */
  lemma TotalAdd(m: Table, key: string, n: int)
    ensures Total(Add(m, key, n)) == Total(m) + n
  {
    var r := Add(m, key, n);
    TotalRemove(r, key);
    if key in m {
      TotalRemove(m, key);
      assert r - {key} == m - {key};
    } else {
      assert r - {key} == m;
    }
  }
}
