/**
 The ABI encoding of two byte strings: the encoder of the extension, the decoder of
 the end-to-end test, and the "Formal Specification of the Encoding" of the Solidity
 Contract ABI Specification they are both measured against.
 */
module AbiCodec {
  import opened ByteStrings

  // ----- the standard

  /** uintN values, byte strings, and tuples of values. */
  datatype AbiValue = Uint(n: nat) | BytesOf(b: Bytes) | Tuple(parts: seq<AbiValue>)

  /** bytes is dynamic, and a tuple is dynamic if one of its parts is. */
  predicate Dynamic(v: AbiValue) {
    match v
    case Uint(_) => false
    case BytesOf(_) => true
    case Tuple(parts) => exists i :: 0 <= i < |parts| && Dynamic(parts[i])
  }

  /** Trailing zeros up to a multiple of 32. */
  function PadRight(b: Bytes): Bytes {
    b + Zeros((32 - |b| % 32) % 32)
  }

  function Ceil32(n: nat): nat {
    n + (32 - n % 32) % 32
  }

  /** The least multiple of 32 that is not below n, counted word by word. */
  function RoundUp(n: nat): (m: nat)
    ensures n <= m < n + 32
  {
    if n == 0 then 0 else if n <= 32 then 32 else 32 + RoundUp(n - 32)
  }

  /** The same in closed form. */
  lemma {:induction false} RoundUpInClosedForm(n: nat)
    ensures RoundUp(n) == 32 * ((n + 31) / 32) && RoundUp(n) % 32 == 0
  {
    if n > 32 {
      RoundUpInClosedForm(n - 32);
      assert (n + 31) / 32 == (n - 32 + 31) / 32 + 1;
    }
  }

  lemma CeilInClosedForm(n: nat)
    ensures Ceil32(n) == 32 * ((n + 31) / 32)
  {
    var q, r := n / 32, n % 32;
    assert n == 32 * q + r;
    if r == 0 {
      assert (n + 31) / 32 == q;
    } else {
      assert (n + 31) / 32 == q + 1;
    }
  }

  /** The padding fills the last word and no more: none for full words, and none for no bytes. */
  lemma CeilIsRoundUp(n: nat)
    ensures Ceil32(n) == RoundUp(n) && n <= Ceil32(n) < n + 32 && Ceil32(n) % 32 == 0
  {
    CeilInClosedForm(n);
    RoundUpInClosedForm(n);
  }

  /** enc(X). */
  function Enc(v: AbiValue): Bytes
    decreases v, 2
  {
    match v
    case Uint(n) => Word(n)
    case BytesOf(b) => Word(|b|) + PadRight(b)
    case Tuple(parts) => Heads(parts, HeadsLength(parts)) + Tails(parts)
  }

  /** head(X): the offset of the tail for a dynamic part, the part itself otherwise. */
  function Head(part: AbiValue, offset: nat): Bytes
    decreases part, 3
  {
    if Dynamic(part) then Word(offset) else Enc(part)
  }

  /** tail(X). */
  function Tail(part: AbiValue): Bytes
    decreases part, 3
  {
    if Dynamic(part) then Enc(part) else []
  }

  /** The length of head(X1) ... head(Xk), which does not depend on the offsets. */
  function HeadsLength(parts: seq<AbiValue>): nat
    decreases parts, 1
  {
    if parts == [] then 0 else |Head(parts[0], 0)| + HeadsLength(parts[1..])
  }

  /** The heads, given how far from the start of the tuple the next tail begins. */
  function Heads(parts: seq<AbiValue>, offset: nat): Bytes
    decreases parts, 1
  {
    if parts == [] then [] else Head(parts[0], offset) + Heads(parts[1..], offset + |Tail(parts[0])|)
  }

  function Tails(parts: seq<AbiValue>): Bytes
    decreases parts, 1
  {
    if parts == [] then [] else Tail(parts[0]) + Tails(parts[1..])
  }

  lemma BytesAreWordAligned(b: Bytes)
    ensures |Word(|b|) + PadRight(b)| % 32 == 0
  {
    CeilIsRoundUp(|b|);
    SumIsAligned(32, Ceil32(|b|));
    assert |PadRight(b)| == Ceil32(|b|);
  }

  /** Every encoding is a whole number of words. */
  lemma {:induction false} EncIsWordAligned(v: AbiValue)
    ensures |Enc(v)| % 32 == 0
    decreases v, 1
  {
    match v
    case Uint(n) =>
    case BytesOf(b) => BytesAreWordAligned(b);
    case Tuple(parts) => PartsAreWordAligned(parts, HeadsLength(parts));
  }

  lemma SumIsAligned(x: nat, y: nat)
    requires x % 32 == 0 && y % 32 == 0
    ensures (x + y) % 32 == 0
  {
  }

  lemma {:induction false} PartsAreWordAligned(parts: seq<AbiValue>, offset: nat)
    ensures |Heads(parts, offset)| % 32 == 0 && |Tails(parts)| % 32 == 0
    decreases parts, 0
  {
    if parts != [] {
      var rest, next := parts[1..], offset + |Tail(parts[0])|;
      EncIsWordAligned(parts[0]);
      PartsAreWordAligned(rest, next);
      SumIsAligned(|Head(parts[0], offset)|, |Heads(rest, next)|);
      SumIsAligned(|Tail(parts[0])|, |Tails(rest)|);
    }
  }

  /** The offset a tuple starts counting from is where its heads end. */
  lemma {:induction false} HeadsHaveTheirLength(parts: seq<AbiValue>, offset: nat)
    ensures |Heads(parts, offset)| == HeadsLength(parts)
    decreases parts
  {
    if parts != [] {
      HeadsHaveTheirLength(parts[1..], offset + |Tail(parts[0])|);
    }
  }

  /** The tails of the first k parts come before those of the others. */
  lemma {:induction false} TailsSplit(parts: seq<AbiValue>, k: nat)
    requires k <= |parts|
    ensures Tails(parts) == Tails(parts[..k]) + Tails(parts[k..])
    decreases k
  {
    if k == 0 {
      assert parts[0..] == parts;
    } else {
      var rest := parts[1..];
      assert parts[..k][1..] == rest[..k - 1] && rest[k - 1..] == parts[k..];
      TailsSplit(rest, k - 1);
      Regroup(Tail(parts[0]), Tails(rest[..k - 1]), Tails(parts[k..]));
    }
  }

  /** The same for the heads; the tails of the first k parts move the offset of the others. */
  lemma {:induction false} HeadsSplit(parts: seq<AbiValue>, k: nat, offset: nat)
    requires k <= |parts|
    ensures Heads(parts, offset) == Heads(parts[..k], offset) + Heads(parts[k..], offset + |Tails(parts[..k])|)
    decreases k
  {
    if k == 0 {
      assert parts[0..] == parts;
    } else {
      var rest, next := parts[1..], offset + |Tail(parts[0])|;
      assert parts[..k][1..] == rest[..k - 1] && rest[k - 1..] == parts[k..];
      HeadsSplit(rest, k - 1, next);
      Regroup(Head(parts[0], offset), Heads(rest[..k - 1], next), Heads(parts[k..], next + |Tails(rest[..k - 1])|));
    }
  }

  lemma Regroup(a: Bytes, b: Bytes, c: Bytes)
    ensures a + (b + c) == (a + b) + c
  {
  }

  /** Where the head of part k begins, and where its tail begins. */
  function HeadAt(parts: seq<AbiValue>, k: nat): nat
    requires k <= |parts|
  {
    HeadsLength(parts[..k])
  }

  function TailAt(parts: seq<AbiValue>, k: nat): nat
    requires k <= |parts|
  {
    HeadsLength(parts) + |Tails(parts[..k])|
  }

  predicate SliceIs(data: Bytes, from: nat, piece: Bytes) {
    from + |piece| <= |data| && data[from..from + |piece|] == piece
  }

  lemma SliceInConcat(a: Bytes, b: Bytes, from: nat, piece: Bytes)
    ensures SliceIs(a, from, piece) ==> SliceIs(a + b, from, piece)
    ensures SliceIs(b, from, piece) ==> SliceIs(a + b, |a| + from, piece)
  {
    if SliceIs(a, from, piece) {
      assert (a + b)[from..from + |piece|] == a[from..from + |piece|];
    }
    if SliceIs(b, from, piece) {
      assert (a + b)[|a| + from..|a| + from + |piece|] == b[from..from + |piece|];
    }
  }

  lemma SlicesInConcat(a: Bytes, b: Bytes, from: nat, piece: Bytes, inB: nat, other: Bytes, to: nat)
    requires SliceIs(a, from, piece) && SliceIs(b, inB, other) && to == |a| + inB
    ensures SliceIs(a + b, from, piece) && SliceIs(a + b, to, other)
  {
    SliceInConcat(a, b, from, piece);
    SliceInConcat(a, b, inB, other);
  }

  lemma FirstPart(parts: seq<AbiValue>, offset: nat)
    requires parts != []
    ensures SliceIs(Heads(parts, offset), 0, Head(parts[0], offset)) && SliceIs(Tails(parts), 0, Tail(parts[0]))
  {
    var rest := parts[1..];
    SliceInConcat(Head(parts[0], offset), Heads(rest, offset + |Tail(parts[0])|), 0, Head(parts[0], offset));
    SliceInConcat(Tail(parts[0]), Tails(rest), 0, Tail(parts[0]));
  }

  /** What stands at the head of part k. */
  lemma HeadOf(parts: seq<AbiValue>, k: nat, start: nat, offset: nat)
    requires k < |parts| && offset == start + |Tails(parts[..k])|
    ensures SliceIs(Heads(parts, start), HeadAt(parts, k), Head(parts[k], offset))
  {
    HeadsSplit(parts, k, start);
    HeadsHaveTheirLength(parts[..k], start);
    FirstPart(parts[k..], offset);
    SliceInConcat(Heads(parts[..k], start), Heads(parts[k..], offset), 0, Head(parts[k], offset));
  }

  /** What stands at its tail. */
  lemma TailOf(parts: seq<AbiValue>, k: nat)
    requires k < |parts|
    ensures SliceIs(Tails(parts), |Tails(parts[..k])|, Tail(parts[k]))
  {
    TailsSplit(parts, k);
    FirstPart(parts[k..], 0);
    SliceInConcat(Tails(parts[..k]), Tails(parts[k..]), 0, Tail(parts[k]));
  }

  lemma PartInTuple(parts: seq<AbiValue>, k: nat)
    requires k < |parts|
    ensures SliceIs(Heads(parts, HeadsLength(parts)) + Tails(parts), HeadAt(parts, k), Head(parts[k], TailAt(parts, k)))
    ensures SliceIs(Heads(parts, HeadsLength(parts)) + Tails(parts), TailAt(parts, k), Tail(parts[k]))
  {
    HeadOf(parts, k, HeadsLength(parts), TailAt(parts, k));
    TailOf(parts, k);
    HeadsHaveTheirLength(parts, HeadsLength(parts));
    SlicesInConcat(Heads(parts, HeadsLength(parts)), Tails(parts), HeadAt(parts, k), Head(parts[k], TailAt(parts, k)),
                   |Tails(parts[..k])|, Tail(parts[k]), TailAt(parts, k));
  }

  /**
   The offsets of a tuple's encoding are right, whatever its parts: a static part stands
   in its head, and the head of a dynamic part holds the position where its encoding
   stands, counted from the start of the tuple.
   */
  lemma PartsAreWhereTheirHeadsSay(parts: seq<AbiValue>, k: nat)
    requires k < |parts|
    ensures var e := Enc(Tuple(parts));
            if Dynamic(parts[k]) then SliceIs(e, HeadAt(parts, k), Word(TailAt(parts, k))) && SliceIs(e, TailAt(parts, k), Enc(parts[k]))
            else SliceIs(e, HeadAt(parts, k), Enc(parts[k]))
  {
    PartInTuple(parts, k);
  }

  // ----- the encoder

  /** Padded bytes: the data, then zeros, up to the next multiple of 32. */
  lemma PaddedShape(data: Bytes)
    ensures var padded := PadRight(data);
            && |padded| == RoundUp(|data|) == Ceil32(|data|) < |data| + 32
            && padded[..|data|] == data && forall k :: |data| <= k < |padded| ==> padded[k] == 0
  {
    CeilIsRoundUp(|data|);
  }

  /** padToMultipleOf32: a fresh buffer with the data in front. */
  method padToMultipleOf32(data: Bytes) returns (padded: Bytes)
    ensures padded == PadRight(data)
    ensures |padded| == RoundUp(|data|) && |padded| < |data| + 32
    ensures padded[..|data|] == data && forall k :: |data| <= k < |padded| ==> padded[k] == 0
  {
    PaddedShape(data);
    if |data| == 0 {
      return [];
    }
    var remainder := |data| % 32;
    var size := if remainder == 0 then |data| else |data| + 32 - remainder;
    assert size == |PadRight(data)|;
    var buffer := new Byte[size](_ => 0);
    for i := 0 to |data|
      invariant forall k :: 0 <= k < i ==> buffer[k] == data[k]
      invariant forall k :: i <= k < buffer.Length ==> buffer[k] == 0
    {
      buffer[i] := data[i];
    }
    padded := buffer[..];
    assert padded == PadRight(data);
  }

  function EncodedLength(a: Bytes, b: Bytes): nat {
    128 + Ceil32(|a|) + Ceil32(|b|)
  }

  /** What abiEncodeTwo computes, as one expression. */
  function EncodeTwo(a: Bytes, b: Bytes): Bytes {
    Word(64) + Word(96 + Ceil32(|a|)) + (Word(|a|) + PadRight(a)) + (Word(|b|) + PadRight(b))
  }

  /** Offsets first, then each length with its padded bytes, appended in turn. */
  method appendTwo(a: Bytes, b: Bytes) returns (buf: Bytes)
    ensures buf == EncodeTwo(a, b)
  {
    var aPadded := padToMultipleOf32(a);
    var bPadded := padToMultipleOf32(b);
    var offsetA, offsetB := 64, 64 + 32 + |aPadded|;
    buf := [];
    var word := PadLeftBuffer(Shortest(offsetA), 32);
    buf := buf + word;
    word := PadLeftBuffer(Shortest(offsetB), 32);
    buf := buf + word;
    word := PadLeftBuffer(Shortest(|a|), 32);
    buf := buf + word;
    buf := buf + aPadded;
    word := PadLeftBuffer(Shortest(|b|), 32);
    buf := buf + word;
    buf := buf + bPadded;
    SixAppended(Word(64), Word(96 + Ceil32(|a|)), Word(|a|), PadRight(a), Word(|b|), PadRight(b));
  }

  lemma SixAppended(w0: Bytes, w1: Bytes, w2: Bytes, p: Bytes, w3: Bytes, q: Bytes)
    ensures [] + w0 + w1 + w2 + p + w3 + q == w0 + w1 + (w2 + p) + (w3 + q)
  {
  }

  /** abiEncodeTwo computes the standard's encoding of the tuple (bytes,bytes). */
  method abiEncodeTwo(a: Bytes, b: Bytes) returns (buf: Bytes)
    ensures buf == Enc(Tuple([BytesOf(a), BytesOf(b)]))
    ensures |buf| == 128 + RoundUp(|a|) + RoundUp(|b|)
  {
    buf := appendTwo(a, b);
    EncodeTwoMeetsTheStandard(a, b);
    CeilIsRoundUp(|a|);
    CeilIsRoundUp(|b|);
  }

  lemma OneDynamicPart(y: AbiValue, offset: nat)
    requires Dynamic(y)
    ensures HeadsLength([y]) == 32 && Heads([y], offset) == Word(offset) && Tails([y]) == Enc(y)
  {
    var none: seq<AbiValue> := [];
    assert [y][1..] == none;
    assert HeadsLength(none) == 0 && Heads(none, offset + |Enc(y)|) == [] && Tails(none) == [];
  }

  /** A tuple of two dynamic parts: two offset words, then the parts. */
  lemma TwoDynamicParts(x: AbiValue, y: AbiValue)
    requires Dynamic(x) && Dynamic(y)
    ensures Enc(Tuple([x, y])) == Word(64) + Word(64 + |Enc(x)|) + Enc(x) + Enc(y)
  {
    var parts, second := [x, y], 64 + |Enc(x)|;
    assert parts[1..] == [y] && Tail(x) == Enc(x) && Head(x, 64) == Word(64);
    OneDynamicPart(y, second);
    assert HeadsLength(parts) == 64;
    assert Heads(parts, 64) == Word(64) + Word(second);
    assert Tails(parts) == Enc(x) + Enc(y);
    Regroup(Word(64) + Word(second), Enc(x), Enc(y));
  }

  /** The written-out form is the head/tail encoding of the tuple (bytes,bytes). */
  lemma EncodeTwoMeetsTheStandard(a: Bytes, b: Bytes)
    ensures EncodeTwo(a, b) == Enc(Tuple([BytesOf(a), BytesOf(b)]))
    ensures |EncodeTwo(a, b)| == EncodedLength(a, b)
  {
    TwoDynamicParts(BytesOf(a), BytesOf(b));
    assert |Enc(BytesOf(a))| == 32 + Ceil32(|a|);
  }

  // ----- the decoder

  /** Out of range slicing stops the program; that is not the same as returning an error. */
  datatype Decoded = Parts(a: Bytes, b: Bytes) | OutOfRange | Panics

  datatype Read = Read(part: Bytes) | ReadError | ReadPanic

  /** big.Int's Uint64: the low 64 bits. */
  function Low64(n: nat): nat {
    n % TWO_64
  }

  /** Go's int(u): the same 64 bits read as a signed number. */
  function Signed(u: int): int
    requires 0 <= u < TWO_64
  {
    if u < TWO_63 then u else u - TWO_64
  }

  /** Signed 64-bit addition wraps around. */
  function AddSigned(x: int, y: int): int
    requires -TWO_63 <= x < TWO_63 && -TWO_63 <= y < TWO_63
  {
    Signed((x + y) % TWO_64)
  }

  /** The slice data[low:high] panics unless its bounds are in order and within the data. */
  predicate Sliceable(data: Bytes, low: nat, high: nat) {
    low <= high <= |data|
  }

  /** readBytes, with the machine arithmetic of its two checks. */
  function ReadBytes(data: Bytes, offset: nat): Read
    requires offset < TWO_64
  {
    if AddSigned(Signed(offset), 32) > |data| then ReadError
    else
      var wordEnd := (offset + 32) % TWO_64;
      if !Sliceable(data, offset, wordEnd) then ReadPanic
      else
        var length := Low64(Value(data[offset..wordEnd]));
        var start := (offset + 32) % TWO_64;
        var end := (start + length) % TWO_64;
        if Signed(end) > |data| then ReadError
        else if !Sliceable(data, start, end) then ReadPanic
        else Read(data[start..end])
  }

  /** abiDecodeTwo. The data is a Go slice, so it is shorter than 2^63. */
  function DecodeTwo(data: Bytes): Decoded
    requires |data| < TWO_63
  {
    if |data| < 64 then OutOfRange
    else
      match ReadBytes(data, Low64(Value(data[0..32])))
      case ReadError => OutOfRange
      case ReadPanic => Panics
      case Read(a) =>
        match ReadBytes(data, Low64(Value(data[32..64])))
        case ReadError => OutOfRange
        case ReadPanic => Panics
        case Read(b) => Parts(a, b)
  }

  /** The length word at an offset. */
  function LengthAt(data: Bytes, offset: nat): nat
    requires offset + 32 <= |data|
  {
    Low64(Value(data[offset..offset + 32]))
  }

  /** What a read does, without wrap-around: the exact ranges of the three outcomes. */
  lemma ReadOutcome(data: Bytes, offset: nat)
    requires |data| < TWO_63 && 64 <= |data| && offset < TWO_64
    ensures offset >= TWO_63 - 32 ==> ReadBytes(data, offset) == ReadPanic
    ensures offset < TWO_63 - 32 && offset + 32 > |data| ==> ReadBytes(data, offset) == ReadError
    ensures offset + 32 <= |data| ==>
              var start, length := offset + 32, LengthAt(data, offset);
              ReadBytes(data, offset) ==
                if start + length >= TWO_63 then ReadPanic
                else if start + length > |data| then ReadError
                else Read(data[start..start + length])
  {
    if offset + 32 <= |data| {
      var start, length := offset + 32, LengthAt(data, offset);
      assert (offset + 32) % TWO_64 == offset + 32;
      if start + length < TWO_64 {
        assert (start + length) % TWO_64 == start + length;
      } else {
        assert (start + length) % TWO_64 == start + length - TWO_64;
      }
    } else if offset >= TWO_64 - 32 {
      assert (offset + 32) % TWO_64 == offset + 32 - TWO_64;
    }
  }

  /** The offset or length that leaves the range of int: the read at it panics. */
  predicate Overflows(data: Bytes, offset: nat) {
    offset >= TWO_63 - 32 || (offset + 32 <= |data| && offset + 32 + LengthAt(data, offset) >= TWO_63)
  }

  predicate Readable(data: Bytes, offset: nat) {
    offset + 32 <= |data| && offset + 32 + LengthAt(data, offset) <= |data|
  }

  lemma ReadKinds(data: Bytes, offset: nat)
    requires 64 <= |data| < TWO_63 && offset < TWO_64
    ensures ReadBytes(data, offset) == ReadPanic <==> Overflows(data, offset)
    ensures ReadBytes(data, offset).Read? <==> Readable(data, offset)
    ensures Readable(data, offset) ==> ReadBytes(data, offset) == Read(data[offset + 32..offset + 32 + LengthAt(data, offset)])
  {
    ReadOutcome(data, offset);
  }

  /** Bounds of the decoder: exactly when it panics, when it returns, and what it returns. */
  lemma DecodeBounds(data: Bytes)
    requires |data| < TWO_63
    ensures |data| < 64 ==> DecodeTwo(data) == OutOfRange
    ensures |data| >= 64 ==>
            var first, second := Low64(Value(data[0..32])), Low64(Value(data[32..64]));
            && (DecodeTwo(data) == Panics <==>
                  Overflows(data, first) || (Readable(data, first) && Overflows(data, second)))
            && (DecodeTwo(data).Parts? <==> Readable(data, first) && Readable(data, second))
            && (DecodeTwo(data).Parts? ==>
                  && DecodeTwo(data).a == data[first + 32..first + 32 + LengthAt(data, first)]
                  && DecodeTwo(data).b == data[second + 32..second + 32 + LengthAt(data, second)])
  {
    if |data| >= 64 {
      ReadKinds(data, Low64(Value(data[0..32])));
      ReadKinds(data, Low64(Value(data[32..64])));
    }
  }

  /** Concretely: 64 bytes whose first word is 2^63 stop the decoder. */
  lemma HugeOffsetPanics()
    ensures var data := Word(TWO_63) + Word(0); |data| == 64 && DecodeTwo(data) == Panics
  {
    var data := Word(TWO_63) + Word(0);
    PowerConstants();
    WordValue(TWO_63);
    WordValue(0);
    assert data[0..32] == Word(TWO_63);
    DecodeBounds(data);
    OffsetPanics(data);
  }

  lemma OffsetPanics(data: Bytes)
    requires |data| == 64 && Value(data[0..32]) == TWO_63
    ensures Overflows(data, Low64(Value(data[0..32])))
  {
  }

  // ----- round trips

  lemma SmallWord(n: nat)
    requires n < TWO_64
    ensures Value(Word(n)) == n
  {
    PowerConstants();
    WordValue(n);
  }

  /** Slicing four words and two byte strings out of their concatenation. */
  lemma SixPieces(w0: Bytes, w1: Bytes, w2: Bytes, p: Bytes, w3: Bytes, q: Bytes)
    requires |w0| == |w1| == |w2| == |w3| == 32
    ensures var d := w0 + w1 + (w2 + p) + (w3 + q);
            && |d| == 128 + |p| + |q|
            && d[0..32] == w0 && d[32..64] == w1 && d[64..96] == w2 && d[96..96 + |p|] == p
            && d[96 + |p|..128 + |p|] == w3 && d[128 + |p|..|d|] == q
  {
  }

  lemma PrefixOfSlice(d: Bytes, from: nat, to: nat, n: nat)
    requires from + n <= to <= |d|
    ensures d[from..to][..n] == d[from..from + n]
  {
  }

  lemma EncodingPieces(a: Bytes, b: Bytes)
    ensures var d := EncodeTwo(a, b);
            var second := 96 + Ceil32(|a|);
            && |d| == EncodedLength(a, b) == second + 32 + Ceil32(|b|)
            && d[0..32] == Word(64) && d[32..64] == Word(second)
            && d[64..96] == Word(|a|) && d[96..second] == PadRight(a)
            && d[second..second + 32] == Word(|b|) && d[second + 32..|d|] == PadRight(b)
  {
    SixPieces(Word(64), Word(96 + Ceil32(|a|)), Word(|a|), PadRight(a), Word(|b|), PadRight(b));
  }

  /** Where the pieces of an encoding lie. */
  lemma EncodingLayout(a: Bytes, b: Bytes)
    ensures var d := EncodeTwo(a, b);
            var second := 96 + Ceil32(|a|);
            && |d| == EncodedLength(a, b) == second + 32 + Ceil32(|b|)
            && d[0..32] == Word(64) && d[32..64] == Word(second)
            && d[64..96] == Word(|a|) && d[96..second] == PadRight(a) && d[96..96 + |a|] == a
            && d[second..second + 32] == Word(|b|) && d[second + 32..|d|] == PadRight(b)
            && d[second + 32..second + 32 + |b|] == b
  {
    var d := EncodeTwo(a, b);
    var second := 96 + Ceil32(|a|);
    EncodingPieces(a, b);
    PrefixOfSlice(d, 96, second, |a|);
    PrefixOfSlice(d, second + 32, |d|, |b|);
    assert PadRight(a)[..|a|] == a && PadRight(b)[..|b|] == b;
  }

  /** What a read needs of a message to return a part. */
  lemma ReadsPart(d: Bytes, offset: nat, part: Bytes)
    requires 64 <= |d| < TWO_63 && offset + 32 + |part| <= |d|
    requires Value(d[offset..offset + 32]) == |part| && d[offset + 32..offset + 32 + |part|] == part
    ensures ReadBytes(d, offset) == Read(part)
  {
    assert LengthAt(d, offset) == |part|;
    ReadOutcome(d, offset);
  }

  /** What the decoder needs of a message to return the two parts. */
  lemma DecodesTo(d: Bytes, second: nat, a: Bytes, b: Bytes)
    requires second + 32 + |b| <= |d| < TWO_63 && 96 + |a| <= |d|
    requires Value(d[0..32]) == 64 && Value(d[32..64]) == second
    requires Value(d[64..96]) == |a| && d[96..96 + |a|] == a
    requires Value(d[second..second + 32]) == |b| && d[second + 32..second + 32 + |b|] == b
    ensures DecodeTwo(d) == Parts(a, b)
  {
    ReadsPart(d, 64, a);
    ReadsPart(d, second, b);
    TwoReads(d, second, a, b);
  }

  lemma TwoReads(d: Bytes, second: nat, a: Bytes, b: Bytes)
    requires 64 <= |d| < TWO_63 && second < TWO_63 && Value(d[0..32]) == 64 && Value(d[32..64]) == second
    requires ReadBytes(d, 64) == Read(a) && ReadBytes(d, second) == Read(b)
    ensures DecodeTwo(d) == Parts(a, b)
  {
    assert Low64(64) == 64 && Low64(second) == second;
  }

  /** The decoder undoes the encoder for every pair whose encoding is a Go slice. */
  lemma RoundTrip(a: Bytes, b: Bytes)
    requires EncodedLength(a, b) < TWO_63
    ensures |EncodeTwo(a, b)| < TWO_63 && DecodeTwo(EncodeTwo(a, b)) == Parts(a, b)
  {
    EncodingLayout(a, b);
    EncodedWords(a, b);
    DecodesTo(EncodeTwo(a, b), 96 + Ceil32(|a|), a, b);
  }

  lemma EncodedWords(a: Bytes, b: Bytes)
    requires EncodedLength(a, b) < TWO_63
    ensures Value(Word(64)) == 64 && Value(Word(96 + Ceil32(|a|))) == 96 + Ceil32(|a|)
    ensures Value(Word(|a|)) == |a| && Value(Word(|b|)) == |b|
  {
    SmallWord(64);
    SmallWord(96 + Ceil32(|a|));
    SmallWord(|a|);
    SmallWord(|b|);
  }

  lemma EncoderIsInjective(a: Bytes, b: Bytes, c: Bytes, d: Bytes)
    requires EncodedLength(a, b) < TWO_63 && EncodedLength(c, d) < TWO_63
    requires EncodeTwo(a, b) == EncodeTwo(c, d)
    ensures a == c && b == d
  {
    RoundTrip(a, b);
    RoundTrip(c, d);
  }

  predicate AllZero(b: Bytes) {
    forall i :: 0 <= i < |b| ==> b[i] == 0
  }

  /** The one layout the standard's encoder produces: full words, exact offsets, zero padding, nothing after. */
  predicate Canonical(data: Bytes) {
    && 128 <= |data|
    && Value(data[0..32]) == 64
    && var lengthA := Value(data[64..96]);
       var second := 96 + Ceil32(lengthA);
       && Value(data[32..64]) == second
       && second + 32 <= |data|
       && AllZero(data[96 + lengthA..second])
       && var lengthB := Value(data[second..second + 32]);
          && |data| == second + 32 + Ceil32(lengthB)
          && AllZero(data[second + 32 + lengthB..])
  }

  lemma PaddedPiece(data: Bytes, from: nat, length: nat, to: nat)
    requires from + length <= to <= |data| && to == from + Ceil32(length)
    ensures AllZero(data[from + length..to]) <==> data[from..to] == PadRight(data[from..from + length])
  {
    var piece := data[from..from + length];
    var rest := data[from + length..to];
    assert data[from..to] == piece + rest;
    assert PadRight(piece) == piece + Zeros(|rest|);
    if piece + rest == piece + Zeros(|rest|) {
      assert rest == (piece + rest)[length..] == Zeros(|rest|);
    }
    if AllZero(rest) {
      assert rest == Zeros(|rest|);
    }
  }

  lemma ReencodedIsCanonical(data: Bytes, a: Bytes, b: Bytes)
    requires |data| < TWO_63 && EncodeTwo(a, b) == data
    ensures Canonical(data)
  {
    EncodingPieces(a, b);
    EncodedIsCanonical(a, b);
  }

  /** Re-encoding a decoded message gives it back exactly when its layout is canonical. */
  lemma CanonicalForm(data: Bytes)
    requires 64 <= |data| < TWO_63 && DecodeTwo(data).Parts?
    ensures EncodeTwo(DecodeTwo(data).a, DecodeTwo(data).b) == data <==> Canonical(data)
  {
    if EncodeTwo(DecodeTwo(data).a, DecodeTwo(data).b) == data {
      ReencodedIsCanonical(data, DecodeTwo(data).a, DecodeTwo(data).b);
    }
    if Canonical(data) {
      CanonicalIsEncoded(data);
    }
  }

  lemma CanonicalFrom(d: Bytes, lengthA: nat, lengthB: nat)
    requires var second := 96 + Ceil32(lengthA);
             && |d| == second + 32 + Ceil32(lengthB)
             && Value(d[0..32]) == 64 && Value(d[32..64]) == second && Value(d[64..96]) == lengthA
             && Value(d[second..second + 32]) == lengthB
             && AllZero(d[96 + lengthA..second]) && AllZero(d[second + 32 + lengthB..|d|])
    ensures Canonical(d)
  {
    var rest := 96 + Ceil32(lengthA) + 32 + lengthB;
    assert d[rest..|d|] == d[rest..];
  }

  lemma EncodedPadding(a: Bytes, b: Bytes)
    ensures var d, second := EncodeTwo(a, b), 96 + Ceil32(|a|);
            && |d| == second + 32 + Ceil32(|b|)
            && AllZero(d[96 + |a|..second]) && AllZero(d[second + 32 + |b|..|d|])
  {
    var d := EncodeTwo(a, b);
    var second := 96 + Ceil32(|a|);
    EncodingLayout(a, b);
    PaddedPiece(d, 96, |a|, second);
    PaddedPiece(d, second + 32, |b|, |d|);
  }

  /** The words of an encoding, as numbers. */
  lemma EncodedNumbers(a: Bytes, b: Bytes)
    requires EncodedLength(a, b) < TWO_63
    ensures var d, second := EncodeTwo(a, b), 96 + Ceil32(|a|);
            && |d| == second + 32 + Ceil32(|b|)
            && Value(d[0..32]) == 64 && Value(d[32..64]) == second
            && Value(d[64..96]) == |a| && Value(d[second..second + 32]) == |b|
  {
    EncodingLayout(a, b);
    EncodedWords(a, b);
  }

  lemma EncodedIsCanonical(a: Bytes, b: Bytes)
    requires EncodedLength(a, b) < TWO_63
    ensures Canonical(EncodeTwo(a, b))
  {
    EncodedNumbers(a, b);
    EncodedPadding(a, b);
    CanonicalFrom(EncodeTwo(a, b), |a|, |b|);
  }

  /**
   By position: four words, the two byte strings, and zeros up to the lengths given. The
   second offset is where the second length stands.
   */
  predicate LaidOut(d: Bytes, a: Bytes, b: Bytes, paddedA: nat, paddedB: nat) {
    && |a| <= paddedA && |b| <= paddedB && |d| == 128 + paddedA + paddedB
    && Value(d[0..32]) == 64 && Value(d[32..64]) == 96 + paddedA
    && Value(d[64..96]) == |a| && d[96..96 + |a|] == a && AllZero(d[96 + |a|..96 + paddedA])
    && Value(d[96 + paddedA..128 + paddedA]) == |b| && d[128 + paddedA..128 + paddedA + |b|] == b
    && AllZero(d[128 + paddedA + |b|..|d|])
  }

  lemma EncodingIsLaidOut(a: Bytes, b: Bytes)
    requires EncodedLength(a, b) < TWO_63
    ensures LaidOut(EncodeTwo(a, b), a, b, Ceil32(|a|), Ceil32(|b|))
  {
    EncodingLayout(a, b);
    EncodedNumbers(a, b);
    EncodedPadding(a, b);
  }

  /** Each part of an encoding is padded to the least multiple of 32, and no further. */
  lemma EncodingByPosition(a: Bytes, b: Bytes)
    requires 128 + RoundUp(|a|) + RoundUp(|b|) < TWO_63
    ensures LaidOut(EncodeTwo(a, b), a, b, RoundUp(|a|), RoundUp(|b|))
  {
    CeilIsRoundUp(|a|);
    CeilIsRoundUp(|b|);
    EncodingIsLaidOut(a, b);
  }

  /** A message is its six pieces put together. */
  lemma Reassemble(d: Bytes, second: nat)
    requires 96 <= second && second + 32 <= |d|
    ensures d == d[0..32] + d[32..64] + (d[64..96] + d[96..second]) + (d[second..second + 32] + d[second + 32..|d|])
  {
  }

  /** A message whose pieces are those of an encoding is that encoding. */
  lemma FromPieces(d: Bytes, second: nat, a: Bytes, b: Bytes)
    requires second == 96 + Ceil32(|a|) && second + 32 <= |d|
    requires d[0..32] == Word(64) && d[32..64] == Word(second) && d[64..96] == Word(|a|)
    requires d[96..second] == PadRight(a) && d[second..second + 32] == Word(|b|) && d[second + 32..|d|] == PadRight(b)
    ensures EncodeTwo(a, b) == d
  {
    Reassemble(d, second);
  }

  lemma CanonicalWords(d: Bytes)
    requires Canonical(d)
    ensures var second := 96 + Ceil32(Value(d[64..96]));
            && d[0..32] == Word(64) && d[32..64] == Word(second)
            && d[64..96] == Word(Value(d[64..96]))
            && d[second..second + 32] == Word(Value(d[second..second + 32]))
  {
    var second := 96 + Ceil32(Value(d[64..96]));
    WordIsUnique(d[0..32]);
    WordIsUnique(d[32..64]);
    WordIsUnique(d[64..96]);
    WordIsUnique(d[second..second + 32]);
  }

  lemma CanonicalPadding(d: Bytes)
    requires Canonical(d)
    ensures var lengthA := Value(d[64..96]);
            var second := 96 + Ceil32(lengthA);
            var lengthB := Value(d[second..second + 32]);
            && d[96..second] == PadRight(d[96..96 + lengthA])
            && d[second + 32..|d|] == PadRight(d[second + 32..second + 32 + lengthB])
  {
    var lengthA := Value(d[64..96]);
    var second := 96 + Ceil32(lengthA);
    var lengthB := Value(d[second..second + 32]);
    PaddedPiece(d, 96, lengthA, second);
    assert d[second + 32 + lengthB..] == d[second + 32 + lengthB..|d|];
    PaddedPiece(d, second + 32, lengthB, |d|);
  }

  lemma CanonicalDecodes(data: Bytes)
    requires |data| < TWO_63 && Canonical(data)
    ensures var lengthA := Value(data[64..96]);
            var second := 96 + Ceil32(lengthA);
            var lengthB := Value(data[second..second + 32]);
            DecodeTwo(data) == Parts(data[96..96 + lengthA], data[second + 32..second + 32 + lengthB])
  {
    var lengthA := Value(data[64..96]);
    var second := 96 + Ceil32(lengthA);
    var lengthB := Value(data[second..second + 32]);
    DecodesTo(data, second, data[96..96 + lengthA], data[second + 32..second + 32 + lengthB]);
  }

  /** The pieces of a canonical message are those of the encoding of its two parts. */
  lemma CanonicalPieces(d: Bytes, second: nat, a: Bytes, b: Bytes)
    requires Canonical(d) && second == 96 + Ceil32(Value(d[64..96]))
    requires a == d[96..96 + Value(d[64..96])] && b == d[second + 32..second + 32 + Value(d[second..second + 32])]
    ensures second == 96 + Ceil32(|a|)
    ensures d[0..32] == Word(64) && d[32..64] == Word(second) && d[64..96] == Word(|a|)
    ensures d[96..second] == PadRight(a) && d[second..second + 32] == Word(|b|) && d[second + 32..|d|] == PadRight(b)
  {
    assert |a| == Value(d[64..96]) && |b| == Value(d[second..second + 32]);
    CanonicalWords(d);
    CanonicalPadding(d);
  }

  lemma CanonicalReassembles(d: Bytes)
    requires Canonical(d)
    ensures var lengthA := Value(d[64..96]);
            var second := 96 + Ceil32(lengthA);
            var lengthB := Value(d[second..second + 32]);
            EncodeTwo(d[96..96 + lengthA], d[second + 32..second + 32 + lengthB]) == d
  {
    var lengthA := Value(d[64..96]);
    var second := 96 + Ceil32(lengthA);
    var lengthB := Value(d[second..second + 32]);
    var a, b := d[96..96 + lengthA], d[second + 32..second + 32 + lengthB];
    CanonicalPieces(d, second, a, b);
    FromPieces(d, second, a, b);
  }

  lemma CanonicalIsEncoded(data: Bytes)
    requires |data| < TWO_63 && Canonical(data)
    ensures DecodeTwo(data).Parts? && EncodeTwo(DecodeTwo(data).a, DecodeTwo(data).b) == data
  {
    CanonicalDecodes(data);
    CanonicalReassembles(data);
  }
}
