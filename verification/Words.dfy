/** Machine words of the Rust and C++ sources: bounded integers, their bit
    patterns and their little-endian bytes. */
module Words {

  type u8 = x: int | 0 <= x < 0x100
  type u16 = x: int | 0 <= x < 0x1_0000
  type u32 = x: int | 0 <= x < 0x1_0000_0000
  type u64 = x: int | 0 <= x < 0x1_0000_0000_0000_0000

  const U64_MAX: u64 := 0xFFFF_FFFF_FFFF_FFFF

  datatype Option<+T> = None | Some(value: T)

  datatype Result<+T, +E> = Ok(value: T) | Err(error: E) {
    predicate IsFailure() {
      Err?
    }

    function PropagateFailure<U>(): Result<U, E>
      requires Err?
    {
      Err(error)
    }

    function Extract(): T
      requires Ok?
    {
      value
    }
  }

  // ---------- bits, least significant first ----------

  function Pow2(n: nat): nat
    ensures Pow2(n) > 0
  {
    if n == 0 then 1 else 2 * Pow2(n - 1)
  }

  function Bits(n: nat, v: nat): (s: seq<bool>)
    ensures |s| == n
  {
    if n == 0 then [] else [v % 2 == 1] + Bits(n - 1, v / 2)
  }

  function OfBits(s: seq<bool>): nat {
    if s == [] then 0 else (if s[0] then 1 else 0) + 2 * OfBits(s[1..])
  }

  lemma {:induction false} OfBitsBits(n: nat, v: nat)
    requires v < Pow2(n)
    ensures OfBits(Bits(n, v)) == v
  {
    if n > 0 {
      OfBitsBits(n - 1, v / 2);
      assert Bits(n, v)[1..] == Bits(n - 1, v / 2);
    }
  }

  lemma {:induction false} BitsOfBits(s: seq<bool>)
    ensures OfBits(s) < Pow2(|s|)
    ensures Bits(|s|, OfBits(s)) == s
  {
    if s != [] {
      BitsOfBits(s[1..]);
      var v, rest := OfBits(s), OfBits(s[1..]);
      assert (v % 2 == 1) == s[0] && v / 2 == rest;
      assert Bits(|s|, v) == [s[0]] + Bits(|s| - 1, rest);
      assert s == [s[0]] + s[1..];
    }
  }

  lemma HalfDivides(v: nat, m: nat)
    requires m > 0
    ensures v / 2 / m == v / (2 * m)
    ensures v % (2 * m) / 2 == v / 2 % m && v % (2 * m) % 2 == v % 2
  {
    var q, r := v / 2 / m, v / 2 % m;
    assert v / 2 == m * q + r;
    assert v == (2 * m) * q + (2 * r + v % 2);
    QuotientIs(v, 2 * m, q, 2 * r + v % 2);
  }

  lemma QuotientIs(v: nat, m: nat, q: nat, r: nat)
    requires r < m && v == m * q + r
    ensures v / m == q && v % m == r
  {
    Multiples(m, v / m - q);
    assert m * (v / m - q) == r - v % m;
  }

  lemma Multiples(m: nat, d: int)
    ensures d >= 1 ==> m * d >= m
    ensures d <= -1 ==> m * d + m <= 0
  {
    if d >= 1 {
      assert m * (d - 1) >= 0;
    } else if d <= -1 {
      assert m * (d + 1) <= 0;
    }
  }

  lemma QuotientShrinks(v: nat, m: nat)
    requires m > 0
    ensures v / m <= v && v % m <= v
  {
    SumShrinks(v, m, v / m, v % m);
  }

  lemma SumShrinks(v: nat, m: nat, q: nat, r: nat)
    requires m > 0 && v == m * q + r
    ensures q <= v && r <= v
  {
    Multiples(q, m);
  }

  lemma BitsStep(n: nat, v: nat, i: nat)
    requires i < n
    ensures Bits(n, v)[i] == if i == 0 then v % 2 == 1 else Bits(n - 1, v / 2)[i - 1]
  {}

  lemma PowStep(k: nat)
    ensures Pow2(k) == if k == 0 then 1 else 2 * Pow2(k - 1)
  {}

  /** Dividing by a power of two drops the low bits. */
  lemma {:induction false} HighBits(n: nat, v: nat, k: nat, i: nat)
    requires i + k < n
    ensures Bits(n, v)[i + k] == Bits(n, v / Pow2(k))[i]
  {
    hide *;
    PowStep(k);
    if k > 0 {
      HalfDivides(v, Pow2(k - 1));
      BitsStep(n, v, i + k);
      HighBits(n - 1, v / 2, k - 1, i);
      BitsLonger(n - 1, v / Pow2(k), i);
    }
  }

  lemma {:induction false} BitsLonger(n: nat, v: nat, i: nat)
    requires i < n
    ensures Bits(n + 1, v)[i] == Bits(n, v)[i]
  {
    if i > 0 {
      BitsLonger(n - 1, v / 2, i - 1);
    }
  }

  /** The remainder keeps them. */
  lemma {:induction false} LowBits(n: nat, v: nat, w: nat, i: nat)
    requires i < n
    ensures Bits(n, v % Pow2(w))[i] == (i < w && Bits(n, v)[i])
  {
    if w == 0 {
      NoBits(n, i);
    } else {
      HalfDivides(v, Pow2(w - 1));
      if i > 0 {
        LowBits(n - 1, v / 2, w - 1, i - 1);
      }
    }
  }

  lemma {:induction false} NoBits(n: nat, i: nat)
    requires i < n
    ensures !Bits(n, 0)[i]
  {
    if i > 0 {
      NoBits(n - 1, i - 1);
    }
  }

  predicate ClearFrom(s: seq<bool>, w: nat) {
    forall i :: w <= i < |s| ==> !s[i]
  }

  /** A value is below 2^w exactly when no bit from w on is set. */
  lemma {:induction false} HighBitsClear(n: nat, v: nat, w: nat)
    requires v < Pow2(n)
    ensures v < Pow2(w) <==> ClearFrom(Bits(n, v), w)
  {
    if n > 0 {
      var s, t, w' := Bits(n, v), Bits(n - 1, v / 2), if w == 0 then 0 else w - 1;
      HighBitsClear(n - 1, v / 2, w');
      assert s == [v % 2 == 1] + t;
      assert Pow2(w) == if w == 0 then 1 else 2 * Pow2(w');
      assert v < Pow2(w) <==> v / 2 < Pow2(w') && (w == 0 ==> !s[0]);
      if ClearFrom(s, w) {
        assert forall j :: 0 <= j < |t| ==> t[j] == s[j + 1];
        assert ClearFrom(t, w');
      }
    }
  }

  // ---------- bytes, little-endian ----------

  function Pow256(n: nat): nat
    ensures Pow256(n) > 0
  {
    if n == 0 then 1 else 256 * Pow256(n - 1)
  }

  function Bytes(n: nat, v: nat): (s: seq<u8>)
    ensures |s| == n
  {
    if n == 0 then [] else [v % 256] + Bytes(n - 1, v / 256)
  }

  function OfBytes(s: seq<u8>): nat {
    if s == [] then 0 else s[0] + 256 * OfBytes(s[1..])
  }

  lemma {:induction false} OfBytesBytes(n: nat, v: nat)
    requires v < Pow256(n)
    ensures OfBytes(Bytes(n, v)) == v
  {
    if n > 0 {
      OfBytesBytes(n - 1, v / 256);
      assert Bytes(n, v)[1..] == Bytes(n - 1, v / 256);
    }
  }

  /** Byte `i` of a number, the least significant first. */
  function ByteOf(v: nat, i: nat): u8 {
    if i == 0 then v % 256 else ByteOf(v / 256, i - 1)
  }

  lemma {:induction false} BytesAre(n: nat, v: nat, i: nat)
    requires i < n
    ensures Bytes(n, v)[i] == ByteOf(v, i)
  {
    if i > 0 {
      BytesAre(n - 1, v / 256, i - 1);
    }
  }

  lemma {:induction false} BytesOfBytes(s: seq<u8>)
    ensures OfBytes(s) < Pow256(|s|)
    ensures Bytes(|s|, OfBytes(s)) == s
  {
    if s != [] {
      BytesOfBytes(s[1..]);
      var v, rest := OfBytes(s), OfBytes(s[1..]);
      assert v % 256 == s[0] && v / 256 == rest;
      assert Bytes(|s|, v) == [s[0]] + Bytes(|s| - 1, rest);
      assert s == [s[0]] + s[1..];
    }
  }

  lemma WordBounds()
    ensures Pow2(16) == 0x1_0000
    ensures Pow256(1) == 0x100 && Pow256(2) == 0x1_0000 && Pow256(4) == 0x1_0000_0000
    ensures Pow256(8) == 0x1_0000_0000_0000_0000
  {
    assert Pow2(8) == 0x100;
    assert Pow2(12) == 0x1000;
    assert Pow256(4) == 0x1_0000_0000;
  }
}
