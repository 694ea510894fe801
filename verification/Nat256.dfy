/** Natural numbers of at most 256 bits and their 32-byte form (`Nat256`). */
module Nat256 {
  import opened Common

  const WIDTH: nat := 32

  function Pow256(n: nat): nat { if n == 0 then 1 else 256 * Pow256(n - 1) }

  /** `BigUint::to_bytes_le`: no leading zeros, except that zero is one byte. */
  function ToBytesLe(n: nat): (r: Bytes)
    ensures |r| >= 1
  {
    if n < 256 then [n] else [n % 256] + ToBytesLe(n / 256)
  }

  /** `BigUint::to_bytes_be`. */
  function ToBytesBe(n: nat): (r: Bytes)
    ensures |r| >= 1
  {
    if n < 256 then [n] else ToBytesBe(n / 256) + [n % 256]
  }

  /** `BigUint::from_bytes_be`. */
  function FromBytesBe(bytes: Bytes): nat {
    if bytes == [] then 0 else 256 * FromBytesBe(bytes[..|bytes| - 1]) + bytes[|bytes| - 1]
  }

  datatype Nat256 = Nat256(value: nat) {
    ghost predicate Valid() { value < Pow256(WIDTH) }
  }

  /** `TryFrom<Nat>`. */
  function TryFrom(n: nat): Result<Nat256, string> {
    if |ToBytesLe(n)| > WIDTH then Err("Nat does not fit in a U256") else Ok(Nat256(n))
  }

  function Zeros(n: nat): Bytes { seq(n, _ => 0) }

  lemma {:induction false} LengthBound(n: nat, k: nat)
    requires k >= 1
    ensures |ToBytesLe(n)| <= k <==> n < Pow256(k)
  {
    assert Pow256(k) == 256 * Pow256(k - 1);
    if n >= 256 {
      if k > 1 {
        LengthBound(n / 256, k - 1);
      } else {
        assert Pow256(0) == 1;
      }
    } else {
      Pow256Positive(k - 1);
    }
  }

  lemma {:induction false} Pow256Positive(n: nat)
    ensures Pow256(n) >= 1
  {
    if n > 0 {
      Pow256Positive(n - 1);
    }
  }

  lemma {:induction false} SameLength(n: nat)
    ensures |ToBytesBe(n)| == |ToBytesLe(n)|
  {
    if n >= 256 {
      SameLength(n / 256);
    }
  }

  lemma {:induction false} FromTo(n: nat)
    ensures FromBytesBe(ToBytesBe(n)) == n
  {
    if n < 256 {
      assert ToBytesBe(n)[..0] == [];
    } else {
      FromTo(n / 256);
      var r := ToBytesBe(n);
      assert r[..|r| - 1] == ToBytesBe(n / 256);
    }
  }

  lemma {:induction false} PaddingKeepsValue(pad: nat, bytes: Bytes)
    ensures FromBytesBe(Zeros(pad) + bytes) == FromBytesBe(bytes)
  {
    var all := Zeros(pad) + bytes;
    if bytes != [] {
      PaddingKeepsValue(pad, bytes[..|bytes| - 1]);
      assert all[..|all| - 1] == Zeros(pad) + bytes[..|bytes| - 1];
    } else if pad > 0 {
      PaddingKeepsValue(pad - 1, []);
      assert all[..|all| - 1] == Zeros(pad - 1) + [];
    }
  }

  lemma {:induction false} ValueBound(bytes: Bytes)
    ensures FromBytesBe(bytes) < Pow256(|bytes|)
  {
    if bytes != [] {
      ValueBound(bytes[..|bytes| - 1]);
    }
  }

  lemma {:induction false} ValueInjective(a: Bytes, b: Bytes)
    requires |a| == |b| && FromBytesBe(a) == FromBytesBe(b)
    ensures a == b
  {
    if a != [] {
      var x, y := a[|a| - 1], b[|b| - 1];
      var p, q := FromBytesBe(a[..|a| - 1]), FromBytesBe(b[..|b| - 1]);
      assert 256 * p + x == 256 * q + y;
      assert p == q && x == y;
      ValueInjective(a[..|a| - 1], b[..|b| - 1]);
      assert a == a[..|a| - 1] + [x] && b == b[..|b| - 1] + [y];
    }
  }

  lemma PowersOf256()
    ensures Pow256(8) == 0x1_0000_0000_0000_0000
    ensures Pow256(16) == 0x1_0000_0000_0000_0000_0000_0000_0000_0000
    ensures Pow256(32) == 0x1_0000_0000_0000_0000_0000_0000_0000_0000_0000_0000_0000_0000_0000_0000_0000_0000
  {
    assert Pow256(2) == 0x1_0000 && Pow256(4) == 0x1_0000_0000 && Pow256(6) == 0x1_0000_0000_0000;
    Pow256Sum(8, 8);
    Pow256Sum(16, 16);
  }

  lemma {:induction false} Pow256Sum(m: nat, n: nat)
    ensures Pow256(m + n) == Pow256(m) * Pow256(n)
  {
    if n > 0 {
      Pow256Sum(m, n - 1);
      assert Pow256(m) * Pow256(n) == 256 * (Pow256(m) * Pow256(n - 1));
    }
  }

  /** A number is accepted exactly when it is below 2^256. */
  lemma TryFromIff(n: nat)
    ensures TryFrom(n).Ok? <==> n < 0x1_0000_0000_0000_0000_0000_0000_0000_0000_0000_0000_0000_0000_0000_0000_0000_0000
    ensures TryFrom(n).Ok? <==> n < Pow256(WIDTH)
    ensures TryFrom(n).Ok? ==> TryFrom(n).value.Valid() && TryFrom(n).value.value == n
  {
    LengthBound(n, WIDTH);
    PowersOf256();
  }

  /** The 32-byte form: the bytes of the value, padded on the left. */
  function BeBytes(n: Nat256): Bytes {
    var bytes := ToBytesBe(n.value);
    if |bytes| <= WIDTH then Zeros(WIDTH - |bytes|) + bytes else bytes
  }

  lemma BytesFit(n: Nat256)
    requires n.Valid()
    ensures |ToBytesBe(n.value)| <= WIDTH && |BeBytes(n)| == WIDTH
  {
    LengthBound(n.value, WIDTH);
    SameLength(n.value);
  }

  /** `into_be_bytes`: the source's assertion about the length cannot fail. */
  method IntoBeBytes(n: Nat256) returns (bytes: array<u8>)
    requires n.Valid()
    ensures fresh(bytes) && bytes.Length == 32 && bytes[..] == BeBytes(n)
  {
    var valueBytes := ToBytesBe(n.value);
    bytes := new u8[WIDTH](_ => 0);
    BytesFit(n);
    assert |valueBytes| <= WIDTH;  // "BUG: Nat does not fit in a U256"
    var offset := WIDTH - |valueBytes|;
    for i := 0 to |valueBytes|
      invariant forall k :: 0 <= k < offset ==> bytes[k] == 0
      invariant forall k :: 0 <= k < i ==> bytes[offset + k] == valueBytes[k]
    {
      bytes[offset + i] := valueBytes[i];
    }
    assert forall k :: offset <= k < WIDTH ==> bytes[k] == bytes[offset + (k - offset)];
  }

  /** `from_be_bytes`: any 32 bytes are accepted, so its `expect` cannot fail. */
  function FromBeBytes(bytes: Bytes): (r: Nat256)
    requires |bytes| == WIDTH
    ensures r.Valid() && r.value == FromBytesBe(bytes)
  {
    ValueBound(bytes);
    TryFromIff(FromBytesBe(bytes));
    TryFrom(FromBytesBe(bytes)).value
  }

  lemma DropLowByte(q: nat, x: nat, p: nat)
    requires x < 256 && p >= 1
    ensures (256 * q + x) / (256 * p) == q / p
  {
    var d, r := q / p, q % p;
    assert 256 * q + x == d * (256 * p) + (256 * r + x);
    assert 0 <= 256 * r + x < 256 * p;
    DivideExactly(256 * q + x, 256 * p, d, 256 * r + x);
  }

  lemma DivideExactly(n: nat, p: nat, d: nat, r: nat)
    requires n == d * p + r && r < p
    ensures n / p == d
  {
    var q := n / p;
    assert n == q * p + n % p;
    assert (d + 1) * p == d * p + p && (q + 1) * p == q * p + p;
    LessByFactor(q, d + 1, p);
    LessByFactor(d, q + 1, p);
  }

  lemma LessByFactor(a: nat, b: nat, p: nat)
    requires a * p < b * p
    ensures a < b
  {
    assert a >= b ==> (a - b) * p >= 0;
  }

  /** The bytes are those of the value, the most significant first. */
  lemma {:induction false} ByteAt(bytes: Bytes, i: nat)
    requires i < |bytes|
    ensures Pow256(|bytes| - 1 - i) >= 1
    ensures bytes[i] == FromBytesBe(bytes) / Pow256(|bytes| - 1 - i) % 256
  {
    Pow256Positive(|bytes| - 1 - i);
    var front, last := bytes[..|bytes| - 1], bytes[|bytes| - 1];
    if i < |bytes| - 1 {
      ByteAt(front, i);
      DropLowByte(FromBytesBe(front), last, Pow256(|bytes| - 2 - i));
    } else {
      assert (256 * FromBytesBe(front) + last) % 256 == last;
    }
  }

  /** Byte number `i` of the 32-byte form is worth 256 to the 31 - i. */
  lemma IntoExactly(n: Nat256, i: nat)
    requires n.Valid() && i < 32
    ensures |BeBytes(n)| == 32 && Pow256(31 - i) >= 1
    ensures BeBytes(n)[i] == n.value / Pow256(31 - i) % 256
  {
    FromInto(n);
    ByteAt(BeBytes(n), i);
  }

  /** Every value is recovered from its 32 bytes. */
  lemma FromInto(n: Nat256)
    requires n.Valid()
    ensures |BeBytes(n)| == 32 && FromBeBytes(BeBytes(n)) == n
  {
    BytesFit(n);
    FromTo(n.value);
    PaddingKeepsValue(WIDTH - |ToBytesBe(n.value)|, ToBytesBe(n.value));
  }

  /** Every 32 bytes are recovered from their value. */
  lemma IntoFrom(bytes: Bytes)
    requires |bytes| == WIDTH
    ensures BeBytes(FromBeBytes(bytes)) == bytes
  {
    var n := FromBeBytes(bytes);
    FromInto(n);
    ValueInjective(BeBytes(n), bytes);
  }
}
