/** Values shared by every component of the model. */
module Common {

  datatype Option<+T> = None | Some(value: T)

  datatype Result<+T, +E> = Ok(value: T) | Err(error: E)

  /** Rust's unsigned machine integers, as the ranges they hold. */
  type u8 = n: int | 0 <= n < 0x100
  type u64 = n: int | 0 <= n < 0x1_0000_0000_0000_0000

  type Bytes = seq<u8>

  const U64_VALUES: nat := 0x1_0000_0000_0000_0000

  /** Rust's `as u8` on a length: the low eight bits. */
  function AsU8(n: nat): (r: u8)
    ensures r <= n
  {
    n % 0x100
  }

  function Min(a: int, b: int): int { if a <= b then a else b }

  function Max(a: int, b: int): int { if a <= b then b else a }

  /** `into_iter().map(f).collect()` into a vector. */
  function MapSeq<T, U>(f: T -> U, s: seq<T>): (r: seq<U>)
    ensures |r| == |s|
    ensures forall i :: 0 <= i < |s| ==> r[i] == f(s[i])
  {
    if s == [] then [] else [f(s[0])] + MapSeq(f, s[1..])
  }

  /** `into_iter().take(n)`. */
  function Take<T>(s: seq<T>, n: nat): seq<T> {
    if n <= |s| then s[..n] else s
  }

  predicate Distinct<T(==)>(s: seq<T>) {
    forall i, j :: 0 <= i < j < |s| ==> s[i] != s[j]
  }

  /** Collecting a vector into a set. */
  function ToSet<T>(s: seq<T>): set<T> { set x | x in s }

  lemma SubsetCard<T>(a: set<T>, b: set<T>)
    requires a <= b
    ensures |a| <= |b|
  {
    if a != {} {
      var x :| x in a;
      SubsetCard(a - {x}, b - {x});
    }
  }

  lemma ToSetSnoc<T>(s: seq<T>)
    requires s != []
    ensures ToSet(s) == ToSet(s[..|s| - 1]) + {s[|s| - 1]}
  {
    assert s == s[..|s| - 1] + [s[|s| - 1]];
  }

  /** De-duplication never adds elements, and keeps their number exactly when the vector was distinct. */
  lemma {:induction false} ToSetCard<T>(s: seq<T>)
    ensures |ToSet(s)| <= |s|
    ensures |ToSet(s)| == |s| <==> Distinct(s)
  {
    if s != [] {
      var front, last := s[..|s| - 1], s[|s| - 1];
      ToSetCard(front);
      ToSetSnoc(s);
      DistinctSnoc(s);
      if last in front {
        assert ToSet(s) == ToSet(front);
      }
    }
  }

  lemma DistinctSnoc<T>(s: seq<T>)
    requires s != []
    ensures Distinct(s) <==> Distinct(s[..|s| - 1]) && s[|s| - 1] !in s[..|s| - 1]
  {
    var front, last := s[..|s| - 1], s[|s| - 1];
    assert forall i :: 0 <= i < |front| ==> front[i] == s[i];
    if last in front {
      var i :| 0 <= i < |front| && front[i] == last;
      assert s[i] == s[|s| - 1];
    }
  }
}
