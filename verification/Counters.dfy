/** The metric maps of the canister: counters by label, created when first bumped (`add_metric_entry!`). */
module Counters {

  function Count<K(!new)>(m: map<K, nat>, k: K): nat { if k in m then m[k] else 0 }

  /** `add_metric_entry!`: a zero amount leaves no entry behind. */
  function AddEntry<K(!new)>(m: map<K, nat>, k: K, amount: nat): (r: map<K, nat>)
    ensures forall j :: Count(r, j) == Count(m, j) + if j == k then amount else 0
  {
    if amount != 0 then m[k := Count(m, k) + amount] else m
  }

  /** The sum of the counters whose label satisfies `sel`. */
  ghost function Sum<K(!new)>(m: map<K, nat>, sel: K -> bool): nat
    decreases |m|
  {
    if m == map[] then 0
    else
      var k :| k in m;
      (if sel(k) then m[k] else 0) + Sum(m - {k}, sel)
  }

  /** Any label may be summed first. */
  lemma {:induction false} SumWithout<K(!new)>(m: map<K, nat>, sel: K -> bool, k: K)
    requires k in m
    ensures Sum(m, sel) == (if sel(k) then m[k] else 0) + Sum(m - {k}, sel)
    decreases |m|
  {
    var j :| j in m && Sum(m, sel) == (if sel(j) then m[j] else 0) + Sum(m - {j}, sel);
    if j != k {
      SumWithout(m - {j}, sel, k);
      SumWithout(m - {k}, sel, j);
      assert m - {j} - {k} == m - {k} - {j};
    }
  }

  /** Bumping one counter adds to a sum exactly what the bump adds, if its label is counted. */
  lemma SumAddEntry<K(!new)>(m: map<K, nat>, sel: K -> bool, k: K, amount: nat)
    ensures Sum(AddEntry(m, k, amount), sel) == Sum(m, sel) + if sel(k) then amount else 0
  {
    if amount != 0 {
      var r := AddEntry(m, k, amount);
      SumWithout(r, sel, k);
      assert r - {k} == m - {k};
      if k in m {
        SumWithout(m, sel, k);
      } else {
        assert m - {k} == m;
      }
    }
  }

  /** The sum of `f` over a sequence. */
  ghost function SumOver<T>(s: seq<T>, f: T -> nat): nat {
    if s == [] then 0 else SumOver(s[..|s| - 1], f) + f(s[|s| - 1])
  }

  lemma SumOverSnoc<T>(s: seq<T>, x: T, f: T -> nat)
    ensures SumOver(s + [x], f) == SumOver(s, f) + f(x)
  {
    assert (s + [x])[..|s|] == s;
  }

  lemma {:induction false} SumOverUpdate<T>(s: seq<T>, i: nat, x: T, f: T -> nat)
    requires i < |s|
    ensures SumOver(s[i := x], f) + f(s[i]) == SumOver(s, f) + f(x)
  {
    var front, updated := s[..|s| - 1], s[i := x];
    if i == |s| - 1 {
      assert updated[..|updated| - 1] == front;
    } else {
      SumOverUpdate(front, i, x, f);
      assert updated[..|updated| - 1] == front[i := x];
    }
  }
}
