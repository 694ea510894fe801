/**
 Stable sorting by an integer key, the behaviour of Rust's `sort_by` and of `TimedSizedMap::sort_keys_by`.

 `Sort` is the specification; `StableSortUnique` says that a sequence is the stable sort of another exactly when
 it is ascending and keeps, for every key, the elements of that key in their old order.
 */
module StableSorting {

  ghost predicate Ascending<T(!new)>(s: seq<T>, key: T -> int) {
    forall i, j :: 0 <= i < j < |s| ==> key(s[i]) <= key(s[j])
  }

  /** Places `x` after the last element whose key does not exceed its own. */
  function Insert<T>(s: seq<T>, x: T, key: T -> int): (r: seq<T>)
    ensures |r| == |s| + 1
  {
    if s == [] || key(s[|s| - 1]) <= key(x) then s + [x]
    else Insert(s[..|s| - 1], x, key) + [s[|s| - 1]]
  }

  function Sort<T>(s: seq<T>, key: T -> int): (r: seq<T>)
    ensures |r| == |s|
  {
    if s == [] then [] else Insert(Sort(s[..|s| - 1], key), s[|s| - 1], key)
  }

  /** The elements of `s` with key `c`, in order. */
  ghost function Select<T>(s: seq<T>, key: T -> int, c: int): seq<T> {
    if s == [] then []
    else Select(s[..|s| - 1], key, c) + if key(s[|s| - 1]) == c then [s[|s| - 1]] else []
  }

  /** `a` and `b` hold, for every key, the same elements in the same order. */
  ghost predicate SameGroups<T>(a: seq<T>, b: seq<T>, key: T -> int) {
    forall c :: Select(a, key, c) == Select(b, key, c)
  }

  lemma SelectSnoc<T>(s: seq<T>, x: T, key: T -> int, c: int)
    ensures Select(s + [x], key, c) == Select(s, key, c) + if key(x) == c then [x] else []
  {
    assert (s + [x])[..|s|] == s;
  }

  lemma {:induction false} SelectConcat<T>(a: seq<T>, b: seq<T>, key: T -> int, c: int)
    ensures Select(a + b, key, c) == Select(a, key, c) + Select(b, key, c)
  {
    if b == [] {
      assert a + b == a;
    } else {
      var front, last := b[..|b| - 1], b[|b| - 1];
      SelectConcat(a, front, key, c);
      assert a + b == (a + front) + [last];
      SelectSnoc(a + front, last, key, c);
    }
  }

  lemma {:induction false} SelectEmpty<T>(s: seq<T>, key: T -> int, c: int)
    requires forall x :: x in s ==> key(x) != c
    ensures Select(s, key, c) == []
  {
    if s != [] {
      SelectEmpty(s[..|s| - 1], key, c);
    }
  }

  lemma {:induction false} InsertSelect<T>(s: seq<T>, x: T, key: T -> int, c: int)
    ensures Select(Insert(s, x, key), key, c) == Select(s, key, c) + if key(x) == c then [x] else []
  {
    if s == [] || key(s[|s| - 1]) <= key(x) {
      SelectSnoc(s, x, key, c);
    } else {
      var front, last := s[..|s| - 1], s[|s| - 1];
      InsertSelect(front, x, key, c);
      SelectSnoc(Insert(front, x, key), last, key, c);
      if key(x) == c {
        assert key(last) != c;
      }
    }
  }

  /** Stability: the elements of each key keep their order. */
  lemma {:induction false} SortIsStable<T>(s: seq<T>, key: T -> int, c: int)
    ensures Select(Sort(s, key), key, c) == Select(s, key, c)
  {
    if s != [] {
      SortIsStable(s[..|s| - 1], key, c);
      InsertSelect(Sort(s[..|s| - 1], key), s[|s| - 1], key, c);
    }
  }

  lemma {:induction false} InsertContents<T>(s: seq<T>, x: T, key: T -> int)
    ensures multiset(Insert(s, x, key)) == multiset(s) + multiset{x}
  {
    if !(s == [] || key(s[|s| - 1]) <= key(x)) {
      var front, last := s[..|s| - 1], s[|s| - 1];
      InsertContents(front, x, key);
      assert s == front + [last];
    }
  }

  lemma {:induction false} InsertAscending<T(!new)>(s: seq<T>, x: T, key: T -> int)
    requires Ascending(s, key)
    ensures Ascending(Insert(s, x, key), key)
  {
    if !(s == [] || key(s[|s| - 1]) <= key(x)) {
      var front, last := s[..|s| - 1], s[|s| - 1];
      InsertAscending(front, x, key);
      InsertContents(front, x, key);
      var r := Insert(front, x, key);
      forall i | 0 <= i < |r| ensures key(r[i]) <= key(last) {
        assert r[i] in multiset(r);
        assert r[i] in front || r[i] == x;
      }
    }
  }

  /** Sorting permutes its input and leaves it ascending. */
  lemma {:induction false} SortCorrect<T(!new)>(s: seq<T>, key: T -> int)
    ensures multiset(Sort(s, key)) == multiset(s)
    ensures Ascending(Sort(s, key), key)
  {
    if s != [] {
      var front, last := s[..|s| - 1], s[|s| - 1];
      SortCorrect(front, key);
      InsertContents(Sort(front, key), last, key);
      InsertAscending(Sort(front, key), last, key);
      assert s == front + [last];
    }
  }

  lemma SortedAt<T(!new)>(s: seq<T>, key: T -> int, i: nat, j: nat)
    requires i <= j < |s|
    ensures key(Sort(s, key)[i]) <= key(Sort(s, key)[j])
  {
    SortCorrect(s, key);
  }

  lemma SortMembers<T(!new)>(s: seq<T>, key: T -> int, x: T)
    ensures x in Sort(s, key) <==> x in s
  {
    SortCorrect(s, key);
    assert x in multiset(s) <==> x in multiset(Sort(s, key));
  }

  /** Two ascending sequences that agree key by key are equal. */
  lemma {:induction false} AscendingDetermined<T(!new)>(a: seq<T>, b: seq<T>, key: T -> int)
    requires Ascending(a, key) && Ascending(b, key)
    requires SameGroups(a, b, key)
    ensures a == b
  {
    SameEmptiness(a, b, key);
    if a != [] {
      var x, y := a[|a| - 1], b[|b| - 1];
      LastKeyBound(a, b, key);
      LastKeyBound(b, a, key);
      assert Select(a, key, key(x)) == Select(b, key, key(x));
      assert Select(a, key, key(x))[|Select(a, key, key(x))| - 1] == x;
      assert Select(b, key, key(x))[|Select(b, key, key(x))| - 1] == y;
      assert x == y;
      var a', b' := a[..|a| - 1], b[..|b| - 1];
      forall c ensures Select(a', key, c) == Select(b', key, c) {
        var tail := if key(x) == c then [x] else [];
        assert Select(a, key, c) == Select(b, key, c);
        assert Select(a', key, c) + tail == Select(a, key, c);
        assert Select(b', key, c) + tail == Select(b, key, c);
        AppendCancels(Select(a', key, c), Select(b', key, c), tail);
      }
      AscendingDetermined(a', b', key);
      assert a == a' + [x] && b == b' + [y];
    }
  }

  lemma AppendCancels<T>(a: seq<T>, b: seq<T>, tail: seq<T>)
    requires a + tail == b + tail
    ensures a == b
  {
    assert |a| == |b|;
    assert a == (a + tail)[..|a|];
    assert b == (b + tail)[..|b|];
  }

  lemma LastSelected<T>(s: seq<T>, key: T -> int)
    requires s != []
    ensures Select(s, key, key(s[|s| - 1])) != []
  {
  }

  lemma SameEmptiness<T>(a: seq<T>, b: seq<T>, key: T -> int)
    requires SameGroups(a, b, key)
    ensures a == [] <==> b == []
  {
    if a != [] { LastSelected(a, key); }
    if b != [] { LastSelected(b, key); }
  }

  lemma LastKeyBound<T(!new)>(a: seq<T>, b: seq<T>, key: T -> int)
    requires a != [] && b != [] && Ascending(b, key)
    requires SameGroups(a, b, key)
    ensures key(a[|a| - 1]) <= key(b[|b| - 1])
  {
    var c := key(a[|a| - 1]);
    LastSelected(a, key);
    if key(b[|b| - 1]) < c {
      SelectEmpty(b, key, c);
    }
  }

  /** The stable sort is the only ascending sequence that keeps every key's elements in order. */
  lemma StableSortUnique<T(!new)>(s: seq<T>, r: seq<T>, key: T -> int)
    ensures r == Sort(s, key) <==> Ascending(r, key) && SameGroups(r, s, key)
  {
    SortCorrect(s, key);
    forall c ensures Select(Sort(s, key), key, c) == Select(s, key, c) {
      SortIsStable(s, key, c);
    }
    if Ascending(r, key) && SameGroups(r, s, key) {
      AscendingDetermined(r, Sort(s, key), key);
    }
  }

  lemma SortIdempotent<T(!new)>(s: seq<T>, key: T -> int)
    ensures Sort(Sort(s, key), key) == Sort(s, key)
  {
    SortCorrect(s, key);
    StableSortUnique(Sort(s, key), Sort(s, key), key);
  }

  /** Only the keys of the elements present matter. */
  lemma {:induction false} SortCongruent<T(!new)>(s: seq<T>, f: T -> int, g: T -> int)
    requires forall x :: x in s ==> f(x) == g(x)
    ensures Sort(s, f) == Sort(s, g)
  {
    if s != [] {
      SortCongruent(s[..|s| - 1], f, g);
      forall x | x in Sort(s[..|s| - 1], f) ensures f(x) == g(x) {
        SortMembers(s[..|s| - 1], f, x);
      }
      InsertCongruent(Sort(s[..|s| - 1], f), s[|s| - 1], f, g);
    }
  }

  lemma {:induction false} InsertCongruent<T>(s: seq<T>, x: T, f: T -> int, g: T -> int)
    requires f(x) == g(x) && forall y :: y in s ==> f(y) == g(y)
    ensures Insert(s, x, f) == Insert(s, x, g)
  {
    if s != [] {
      InsertCongruent(s[..|s| - 1], x, f, g);
    }
  }

  /** No two different elements of `s` share a key. */
  ghost predicate InjectiveOn<T>(s: seq<T>, key: T -> int) {
    forall x, y :: x in s && y in s && key(x) == key(y) ==> x == y
  }

  ghost function Repeat<T>(x: T, n: nat): seq<T> { seq(n, _ => x) }

  lemma {:induction false} SelectInjective<T>(s: seq<T>, key: T -> int, x: T)
    requires forall y :: y in s && key(y) == key(x) ==> y == x
    ensures Select(s, key, key(x)) == Repeat(x, multiset(s)[x])
  {
    if s != [] {
      var front, last := s[..|s| - 1], s[|s| - 1];
      SelectInjective(front, key, x);
      assert s == front + [last];
      assert multiset(s) == multiset(front) + multiset{last};
    }
  }

  /** When distinct elements have distinct keys, every arrangement of the same elements sorts alike. */
  lemma PermutationsConverge<T(!new)>(a: seq<T>, b: seq<T>, key: T -> int)
    requires multiset(a) == multiset(b) && InjectiveOn(a, key)
    ensures Sort(a, key) == Sort(b, key)
  {
    SortCorrect(a, key);
    forall c ensures Select(Sort(a, key), key, c) == Select(b, key, c) {
      SortIsStable(a, key, c);
      SameElements(a, b);
      if x :| x in a && key(x) == c {
        SelectInjective(a, key, x);
        SelectInjective(b, key, x);
      } else {
        SelectEmpty(a, key, c);
        SelectEmpty(b, key, c);
      }
    }
    StableSortUnique(b, Sort(a, key), key);
  }

  lemma SameElements<T>(a: seq<T>, b: seq<T>)
    requires multiset(a) == multiset(b)
    ensures forall x :: x in a <==> x in b
  {
    forall x ensures x in a <==> x in b {
      assert x in a <==> x in multiset(a);
      assert x in b <==> x in multiset(b);
    }
  }

  /** Every arrangement of `s` has the same stable sort. */
  ghost predicate OrderInsensitive<T(!new)>(s: seq<T>, key: T -> int) {
    forall a, b :: multiset(a) == multiset(s) && multiset(b) == multiset(s) ==> Sort(a, key) == Sort(b, key)
  }

  /** Sorting hides the original order exactly when distinct elements have distinct keys. */
  lemma OrderInsensitiveIff<T(!new)>(s: seq<T>, key: T -> int)
    ensures OrderInsensitive(s, key) <==> InjectiveOn(s, key)
  {
    if InjectiveOn(s, key) {
      forall a, b | multiset(a) == multiset(s) && multiset(b) == multiset(s) ensures Sort(a, key) == Sort(b, key) {
        SameElements(a, s);
        PermutationsConverge(a, b, key);
      }
    }
    if OrderInsensitive(s, key) {
      forall x, y | x in s && y in s && key(x) == key(y) ensures x == y {
        if x != y {
          OrderInsensitiveSeparates(s, x, y, key);
        }
      }
    }
  }

  lemma OrderInsensitiveSeparates<T(!new)>(s: seq<T>, x: T, y: T, key: T -> int)
    requires x in s && y in s && x != y && OrderInsensitive(s, key)
    ensures key(x) != key(y)
  {
    var rest := RemoveOne(s, x);
    assert y in multiset(s);
    assert y in multiset(rest);
    var others := RemoveOne(rest, y);
    var a, b := [x, y] + others, [y, x] + others;
    assert multiset(a) == multiset(s) && multiset(b) == multiset(s);
    if key(x) == key(y) {
      SwappedPairSortsApart(x, y, others, key);
    }
  }

  lemma SwappedPairSortsApart<T(!new)>(x: T, y: T, rest: seq<T>, key: T -> int)
    requires x != y && key(x) == key(y)
    ensures Sort([x, y] + rest, key) != Sort([y, x] + rest, key)
  {
    PairLeads(x, y, rest, key);
    PairLeads(y, x, rest, key);
  }

  lemma PairLeads<T>(x: T, y: T, rest: seq<T>, key: T -> int)
    requires key(x) == key(y)
    ensures var g := Select(Sort([x, y] + rest, key), key, key(x)); g != [] && g[0] == x
  {
    var c := key(x);
    SortIsStable([x, y] + rest, key, c);
    SelectConcat([x, y], rest, key, c);
    SelectSnoc([x], y, key, c);
    SelectSnoc([], x, key, c);
    assert [x, y] == [x] + [y] && [x] == [] + [x];
  }

  lemma RemoveOne<T>(s: seq<T>, x: T) returns (rest: seq<T>)
    requires x in s
    ensures multiset(s) == multiset{x} + multiset(rest)
  {
    var i :| 0 <= i < |s| && s[i] == x;
    rest := s[..i] + s[i + 1..];
    assert s == s[..i] + [x] + s[i + 1..];
  }
}
