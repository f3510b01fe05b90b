/** Byte strings and the numbers they stand for, big-endian. */
module ByteStrings {
  type Byte = b: int | 0 <= b < 256
  type Bytes = seq<Byte>

  const TWO_63 := 0x8000_0000_0000_0000
  const TWO_64 := 0x1_0000_0000_0000_0000

  /** 256 to the power n. */
  function Power(n: nat): (p: nat)
    ensures p > 0
  {
    if n == 0 then 1 else 256 * Power(n - 1)
  }

  /** The number a byte string stands for: big.Int's SetBytes, Python's from_bytes. */
  function Value(b: Bytes): nat {
    if b == [] then 0 else Value(b[..|b| - 1]) * 256 + b[|b| - 1]
  }

  /** The shortest byte string for a number: big.Int's Bytes, empty for zero. */
  function Shortest(n: nat): Bytes {
    if n == 0 then [] else Shortest(n / 256) + [n % 256]
  }

  function Zeros(n: nat): Bytes {
    seq(n, _ => 0)
  }

  /** padLeft: leading zeros up to the size, or the last bytes if there are too many. */
  function PadLeft(b: Bytes, size: nat): Bytes {
    if |b| >= size then b[|b| - size..] else Zeros(size - |b|) + b
  }

  lemma {:induction false} ValueBound(b: Bytes)
    ensures Value(b) < Power(|b|)
  {
    if b != [] {
      ValueBound(b[..|b| - 1]);
    }
  }

  lemma OneMoreByte(v: nat, p: nat, w: nat, x: nat)
    ensures (v * p + w) * 256 + x == v * (256 * p) + (w * 256 + x)
  {
  }

  lemma {:induction false} ValueConcat(a: Bytes, b: Bytes)
    ensures Value(a + b) == Value(a) * Power(|b|) + Value(b)
  {
    if b == [] {
      assert a + b == a;
    } else {
      var n := |b| - 1;
      ValueConcat(a, b[..n]);
      assert (a + b)[..|a + b| - 1] == a + b[..n];
      OneMoreByte(Value(a), Power(n), Value(b[..n]), b[n]);
    }
  }

  lemma {:induction false} ValueZeros(n: nat)
    ensures Value(Zeros(n)) == 0
  {
    if n > 0 {
      assert Zeros(n)[..n - 1] == Zeros(n - 1);
      ValueZeros(n - 1);
    }
  }

  /** Leading zeros do not change the number. */
  lemma PadLeftValue(b: Bytes, size: nat)
    requires |b| <= size
    ensures |PadLeft(b, size)| == size && Value(PadLeft(b, size)) == Value(b)
  {
    if |b| < size {
      ValueConcat(Zeros(size - |b|), b);
      ValueZeros(size - |b|);
    } else {
      assert b[|b| - size..] == b;
    }
  }

  lemma {:induction false} ShortestValue(n: nat)
    ensures Value(Shortest(n)) == n
  {
    if n != 0 {
      ShortestValue(n / 256);
      assert Shortest(n)[..|Shortest(n)| - 1] == Shortest(n / 256);
    }
  }

  lemma {:induction false} ShortestLength(n: nat, k: nat)
    requires n < Power(k)
    ensures |Shortest(n)| <= k
  {
    if n != 0 {
      assert k > 0;
      assert n / 256 < Power(k - 1);
      ShortestLength(n / 256, k - 1);
    }
  }

  lemma LastByteIsUnique(v: nat, x: Byte, w: nat, y: Byte)
    requires v * 256 + x == w * 256 + y
    ensures v == w && x == y
  {
  }

  /** A number has one form of each length: equal lengths and equal numbers are equal strings. */
  lemma {:induction false} OneFormPerLength(a: Bytes, b: Bytes)
    requires |a| == |b| && Value(a) == Value(b)
    ensures a == b
  {
    if a != [] {
      var n := |a| - 1;
      LastByteIsUnique(Value(a[..n]), a[n], Value(b[..n]), b[n]);
      OneFormPerLength(a[..n], b[..n]);
      assert a == a[..n] + [a[n]] && b == b[..n] + [b[n]];
    }
  }

  lemma Regroup256(p: nat, q: nat)
    ensures 256 * (p * q) == (256 * p) * q
  {
  }

  lemma {:induction false} PowerSum(a: nat, b: nat)
    ensures Power(a + b) == Power(a) * Power(b)
  {
    if a > 0 {
      PowerSum(a - 1, b);
      Regroup256(Power(a - 1), Power(b));
    }
  }

  lemma PowerConstants()
    ensures Power(8) == TWO_64
    ensures Power(32) == 0x1_0000_0000_0000_0000_0000_0000_0000_0000_0000_0000_0000_0000_0000_0000_0000_0000
  {
    assert Power(2) == 256 * 256;
    PowerSum(2, 2);
    PowerSum(4, 4);
    PowerSum(8, 8);
    PowerSum(16, 16);
  }

  /** A 256-bit big-endian word. */
  function Word(n: nat): Bytes {
    PadLeft(Shortest(n), 32)
  }

  lemma WordValue(n: nat)
    requires n < Power(32)
    ensures |Word(n)| == 32 && Value(Word(n)) == n
  {
    ShortestLength(n, 32);
    ShortestValue(n);
    PadLeftValue(Shortest(n), 32);
  }

  /** The word of a number is its only 32-byte form. */
  lemma WordIsUnique(b: Bytes)
    requires |b| == 32
    ensures b == Word(Value(b))
  {
    ValueBound(b);
    WordValue(Value(b));
    OneFormPerLength(b, Word(Value(b)));
  }

  // ----- the buffers the programs fill

  /** padLeft as written: a buffer of the given size, filled from the right. */
  method PadLeftBuffer(b: Bytes, size: nat) returns (padded: Bytes)
    ensures padded == PadLeft(b, size)
  {
    if |b| >= size {
      return b[|b| - size..];
    }
    var result := new Byte[size](_ => 0);
    var gap := size - |b|;
    for i := 0 to |b|
      invariant forall k :: 0 <= k < gap + i ==> result[k] == if k < gap then 0 else b[k - gap]
      invariant forall k :: gap + i <= k < size ==> result[k] == 0
    {
      result[gap + i] := b[i];
    }
    padded := result[..];
    assert padded == Zeros(gap) + b;
  }
}
