/** The sum of a table of numbers: what is left to do by all the threads of a protocol. */
module Totals {
  ghost function Total(m: map<nat, nat>): nat
    decreases |m|
  {
    if m == map[] then 0
    else
      var k :| k in m;
      Smaller(m, k);
      m[k] + Total(m - {k})
  }

  lemma Smaller(m: map<nat, nat>, k: nat)
    requires k in m
    ensures |m - {k}| == |m| - 1
  {
    assert (m - {k}).Keys == m.Keys - {k};
  }

  /** The order of the sum does not matter: any entry can be taken out first. */
  lemma {:induction false} TotalWithout(m: map<nat, nat>, k: nat)
    requires k in m
    ensures Total(m) == m[k] + Total(m - {k})
    decreases |m|
  {
    var j :| j in m && Total(m) == m[j] + Total(m - {j});
    if j != k {
      Smaller(m, j);
      TotalWithout(m - {j}, k);
      Smaller(m, k);
      TotalWithout(m - {k}, j);
      assert m - {j} - {k} == m - {k} - {j};
    }
  }

  lemma TotalUpdate(m: map<nat, nat>, k: nat, n: nat)
    ensures Total(m[k := n]) == Total(m) + n - if k in m then m[k] else 0
  {
    TotalWithout(m[k := n], k);
    if k in m {
      TotalWithout(m, k);
      assert m[k := n] - {k} == m - {k};
    } else {
      assert m[k := n] - {k} == m;
    }
  }
}
