/**
 Private keys and signatures as bytes, in the three implementations: the TypeScript
 bigint conversion, the key parsers of Go, TypeScript and Python, the layout of a
 65-byte signature, and the normalisation the end-to-end test applies to it.
 */
module Scalars {
  import opened ByteStrings
  import opened Wrappers
  import AbiCodec

  /** The order of secp256k1. */
  const ORDER := 0xFFFFFFFFFFFFFFFFFFFFFFFFFFFFFFFEBAAEDCE6AF48A03BBFD25E8CD0364141

  // ----- bigints to bytes

  type Digit = d: int | 0 <= d < 16

  /** BigInt's toString(16): at least one digit. */
  function HexDigits(n: nat): seq<Digit> {
    if n < 16 then [n] else HexDigits(n / 16) + [n % 16]
  }

  function DigitsValue(digits: seq<Digit>): nat {
    if digits == [] then 0 else DigitsValue(digits[..|digits| - 1]) * 16 + digits[|digits| - 1]
  }

  lemma {:induction false} DigitsOfNumber(n: nat)
    ensures DigitsValue(HexDigits(n)) == n
  {
    if n >= 16 {
      DigitsOfNumber(n / 16);
      assert HexDigits(n)[..|HexDigits(n)| - 1] == HexDigits(n / 16);
    } else {
      assert [n][..0] == [];
    }
  }

  /** Two digits to the byte. */
  lemma {:induction false} DigitCount(n: nat)
    requires n > 0
    ensures (|HexDigits(n)| + 1) / 2 == |Shortest(n)|
  {
    if n >= 256 {
      assert (n / 16) / 16 == n / 256;
      DigitCount(n / 256);
    } else {
      assert n / 256 == 0;
    }
  }

  lemma LeadingZeroDigit(digits: seq<Digit>)
    ensures DigitsValue([0] + digits) == DigitsValue(digits)
  {
    if digits == [] {
      assert ([0] + digits)[..0] == [];
    } else {
      var n := |digits| - 1;
      assert ([0] + digits)[..n + 1] == [0] + digits[..n];
      LeadingZeroDigit(digits[..n]);
    }
  }

  function Pair(digits: seq<Digit>, k: nat): Byte
    requires 2 * k + 1 < |digits|
  {
    (digits[2 * k] as int) * 16 + digits[2 * k + 1]
  }

  /** Bytes made of the pairs of digits stand for the same number. */
  lemma {:induction false} PairsValue(bytes: Bytes, digits: seq<Digit>)
    requires |digits| == 2 * |bytes|
    requires forall k :: 0 <= k < |bytes| ==> bytes[k] == Pair(digits, k)
    ensures Value(bytes) == DigitsValue(digits)
  {
    if bytes != [] {
      var n := |bytes| - 1;
      var most := digits[..2 * n + 1];
      assert most[..2 * n] == digits[..2 * n];
      assert forall k :: 0 <= k < n ==> Pair(digits[..2 * n], k) == Pair(digits, k);
      PairsValue(bytes[..n], digits[..2 * n]);
      assert DigitsValue(most) == DigitsValue(digits[..2 * n]) * 16 + digits[2 * n];
    }
  }

  lemma ByteCount(n: nat, bytes: Bytes)
    requires Value(bytes) == n && |bytes| == (|HexDigits(n)| + 1) / 2
    ensures bytes == if n == 0 then [0] else Shortest(n)
  {
    if n > 0 {
      DigitCount(n);
      ShortestValue(n);
      OneFormPerLength(bytes, Shortest(n));
    } else {
      assert Zeros(1) == [0];
      ValueZeros(1);
      OneFormPerLength(bytes, [0]);
    }
  }

  /** Bytes read off the digits, with a leading zero if their number is odd, are those of the number. */
  lemma BytesOfDigits(n: nat, padded: seq<Digit>, bytes: Bytes)
    requires padded == if |HexDigits(n)| % 2 == 1 then [0] + HexDigits(n) else HexDigits(n)
    requires |bytes| == |padded| / 2 && forall k :: 0 <= k < |bytes| ==> bytes[k] == Pair(padded, k)
    ensures bytes == if n == 0 then [0] else Shortest(n)
  {
    DigitsOfNumber(n);
    LeadingZeroDigit(HexDigits(n));
    PairsValue(bytes, padded);
    ByteCount(n, bytes);
  }

  /** bigintToBytes: pad the hex text to even length, then one parsed pair of digits per byte. */
  method bigintToBytes(n: nat) returns (bytes: Bytes)
    ensures bytes == if n == 0 then [0] else Shortest(n)
  {
    var hex := HexDigits(n);
    var padded := if |hex| % 2 == 1 then [0] + hex else hex;
    var buffer := new Byte[|padded| / 2](_ => 0);
    for i := 0 to buffer.Length
      invariant forall k :: 0 <= k < i ==> buffer[k] == Pair(padded, k)
    {
      buffer[i] := (padded[2 * i] as int) * 16 + padded[2 * i + 1];
    }
    bytes := buffer[..];
    BytesOfDigits(n, padded, bytes);
  }

  /** padLeft(bigintToBytes(n), 32): by WordIsUnique the only 32-byte form of a 256-bit number. */
  method scalarToBytes(n: nat) returns (bytes: Bytes)
    requires n < Power(32)
    ensures bytes == Word(n) && |bytes| == 32 && Value(bytes) == n
  {
    var shortest := bigintToBytes(n);
    bytes := PadLeftBuffer(shortest, 32);
    WordValue(n);
    if n == 0 {
      assert Value([0]) == 0 by { assert [0] == Zeros(1); ValueZeros(1); }
      PadLeftValue([0], 32);
      OneFormPerLength(bytes, Word(0));
    }
  }

  // ----- private keys

  datatype KeyError = EmptyKey | KeyTooLong | ZeroKey | KeyNotBelowOrder

  datatype ParsedKey = Key(bytes: Bytes) | Rejected(error: KeyError)

  /** The key parsers of TypeScript and Python, by the number the bytes stand for. */
  function ParseKey(b: Bytes): ParsedKey {
    if |b| == 0 then Rejected(EmptyKey)
    else if |b| > 32 then Rejected(KeyTooLong)
    else if Value(b) == 0 then Rejected(ZeroKey)
    else if Value(b) >= ORDER then Rejected(KeyNotBelowOrder)
    else Key(Word(Value(b)))
  }

  lemma {:induction false} ZeroValue(b: Bytes)
    ensures Value(b) == 0 <==> forall i :: 0 <= i < |b| ==> b[i] == 0
  {
    if b != [] {
      var n := |b| - 1;
      ZeroValue(b[..n]);
      assert forall i :: 0 <= i < n ==> b[..n][i] == b[i];
    }
  }

  lemma PaddedKey(b: Bytes)
    requires |b| <= 32
    ensures PadLeft(b, 32) == Word(Value(b)) && Value(PadLeft(b, 32)) == Value(b)
  {
    PadLeftValue(b, 32);
    WordIsUnique(PadLeft(b, 32));
  }

  /** parsePrivateKey in TypeScript. The library refuses a 32-byte key outside 1..ORDER-1. */
  method parsePrivateKey(b: Bytes) returns (r: ParsedKey)
    ensures r == ParseKey(b)
  {
    if |b| == 0 {
      return Rejected(EmptyKey);
    }
    if |b| > 32 {
      return Rejected(KeyTooLong);
    }
    var allZero, i := true, 0;
    while i < |b| && allZero
      invariant i <= |b|
      invariant allZero <==> forall k :: 0 <= k < i ==> b[k] == 0
    {
      if b[i] != 0 {
        allZero := false;
      }
      i := i + 1;
    }
    ZeroValue(b);
    if allZero {
      return Rejected(ZeroKey);
    }
    var key := PadLeftBuffer(b, 32);
    PaddedKey(b);
    if !(1 <= Value(key) < ORDER) {
      return Rejected(KeyNotBelowOrder);
    }
    return Key(key);
  }

  /** parse_private_key in Python. */
  function PythonParseKey(b: Bytes): ParsedKey {
    if |b| == 0 then Rejected(EmptyKey)
    else if |b| > 32 then Rejected(KeyTooLong)
    else if forall i :: 0 <= i < |b| ==> b[i] == 0 then Rejected(ZeroKey)
    else
      var key := PadLeft(b, 32);
      if Value(key) >= ORDER then Rejected(KeyNotBelowOrder) else Key(key)
  }

  /** Python and TypeScript agree on every byte string, errors included. */
  lemma PythonAgreesWithTypeScript(b: Bytes)
    ensures PythonParseKey(b) == ParseKey(b)
  {
    ZeroValue(b);
    if |b| <= 32 {
      PaddedKey(b);
    }
  }

  datatype ScalarResult = Scalar(n: nat) | Refused(error: KeyError)

  /** parseSecp256k1PrivateKey in Go: the library reduces the 32 bytes modulo the order. */
  function GoParseKey(b: Bytes): ScalarResult {
    if |b| == 0 then Refused(EmptyKey)
    else if |b| > 32 then Refused(KeyTooLong)
    else
      var n := Value(PadLeft(b, 32)) % ORDER;
      if n == 0 then Refused(ZeroKey) else Scalar(n)
  }

  /** The two results stand for the same key, or are both refusals. */
  predicate SameKey(k: ParsedKey, s: ScalarResult) {
    match (k, s)
    case (Key(bytes), Scalar(n)) => Value(bytes) == n
    case (Rejected(_), Refused(_)) => true
    case _ => false
  }

  lemma KeyBelowTwiceOrder(b: Bytes)
    requires |b| <= 32
    ensures Value(PadLeft(b, 32)) == Value(b) < 2 * ORDER
    ensures Value(b) < Power(32)
  {
    PaddedKey(b);
    ValueBound(PadLeft(b, 32));
    PowerConstants();
  }

  lemma ModuloOrder(n: nat)
    requires n < 2 * ORDER
    ensures n % ORDER == if n < ORDER then n else n - ORDER
  {
  }

  /** Go's result by the number the bytes stand for. */
  lemma GoParsesModuloOrder(b: Bytes)
    requires 0 < |b| <= 32
    ensures GoParseKey(b) == if Value(b) % ORDER == 0 then Refused(ZeroKey) else Scalar(Value(b) % ORDER)
  {
    KeyBelowTwiceOrder(b);
  }

  lemma OrderFits(n: nat)
    requires n < ORDER
    ensures n < Power(32)
  {
    PowerConstants();
  }

  lemma ParsedKeyValue(b: Bytes)
    requires ParseKey(b).Key?
    ensures Value(ParseKey(b).bytes) == Value(b) && 0 < Value(b) < ORDER
  {
    OrderFits(Value(b));
    WordValue(Value(b));
  }

  /** Go accepts what the others accept, as the same number; it differs exactly above the order. */
  lemma GoAgreesBelowOrder(b: Bytes)
    ensures SameKey(ParseKey(b), GoParseKey(b)) <==> |b| > 32 || Value(b) <= ORDER
  {
    if 0 < |b| <= 32 {
      KeyBelowTwiceOrder(b);
      ModuloOrder(Value(b));
      GoParsesModuloOrder(b);
      if ParseKey(b).Key? {
        ParsedKeyValue(b);
      }
    }
  }

  /** Below the order the two give the same key, or refuse for the same reason. */
  lemma SameResult(b: Bytes)
    requires |b| > 32 || Value(b) < ORDER
    ensures SameKey(ParseKey(b), GoParseKey(b))
    ensures ParseKey(b).Rejected? ==> GoParseKey(b) == Refused(ParseKey(b).error)
  {
    GoAgreesBelowOrder(b);
    if 0 < |b| <= 32 {
      GoParsesModuloOrder(b);
    }
  }

  /** Concretely: the 32 bytes of ORDER + 1 are the key 1 for Go, and refused by the others. */
  lemma KeyAboveOrder()
    ensures |Word(ORDER + 1)| == 32 && Value(Word(ORDER + 1)) == ORDER + 1
    ensures GoParseKey(Word(ORDER + 1)) == Scalar(1) && ParseKey(Word(ORDER + 1)) == Rejected(KeyNotBelowOrder)
  {
    PowerConstants();
    WordValue(ORDER + 1);
    GoParsesModuloOrder(Word(ORDER + 1));
  }

  // ----- signatures

  /** What the ECDSA library computes; recovery is 0 or 1. */
  datatype Signature = Signature(r: nat, s: nat, recovery: nat) {
    predicate Valid() {
      0 < r < ORDER && 0 < s < ORDER && recovery < 2
    }
  }

  type ValidSignature = sig: Signature | sig.Valid() witness Signature(1, 1, 0)

  /** r, then s, then v, where v is 27 or 28. */
  function SignatureBytes(sig: ValidSignature): Bytes
  {
    Word(sig.r) + Word(sig.s) + [27 + sig.recovery]
  }

  /** 65 bytes that hold r, s and v of the signature, with v 27 or 28. */
  predicate Carries(bytes: Bytes, sig: ValidSignature) {
    && |bytes| == 65 && Value(bytes[..32]) == sig.r && Value(bytes[32..64]) == sig.s
    && bytes[64] == (if sig.recovery == 0 then 27 else 28)
  }

  lemma ScalarWord(n: nat)
    requires n < ORDER
    ensures |Word(n)| == 32 && Value(Word(n)) == n
  {
    OrderFits(n);
    WordValue(n);
  }

  lemma LayoutCarries(r: Bytes, s: Bytes, sig: ValidSignature)
    requires |r| == |s| == 32 && Value(r) == sig.r && Value(s) == sig.s
    ensures Carries(r + s + [27 + sig.recovery], sig)
  {
    var bytes := r + s + [27 + sig.recovery];
    assert bytes[..32] == r && bytes[32..64] == s;
  }

  lemma SignatureCarries(sig: ValidSignature)
    ensures Carries(SignatureBytes(sig), sig)
  {
    ScalarWord(sig.r);
    ScalarWord(sig.s);
    LayoutCarries(Word(sig.r), Word(sig.s), sig);
  }

  /** Nothing else carries it: the layout is the only one. */
  lemma CarriesOnly(bytes: Bytes, sig: ValidSignature)
    requires Carries(bytes, sig)
    ensures bytes == SignatureBytes(sig)
  {
    WordIsUnique(bytes[..32]);
    WordIsUnique(bytes[32..64]);
    assert bytes == bytes[..32] + bytes[32..64] + [bytes[64]];
  }

  /** r, s and v copied into their places in a 65-byte buffer. */
  method assemble(r: Bytes, s: Bytes, v: Byte) returns (result: Bytes)
    requires |r| == |s| == 32
    ensures result == r + s + [v]
  {
    var buffer := new Byte[65](_ => 0);
    for i := 0 to 32
      invariant forall k :: 0 <= k < i ==> buffer[k] == r[k]
    {
      buffer[i] := r[i];
    }
    for i := 0 to 32
      invariant forall k :: 0 <= k < 32 ==> buffer[k] == r[k]
      invariant forall k :: 32 <= k < 32 + i ==> buffer[k] == s[k - 32]
    {
      buffer[32 + i] := s[i];
    }
    buffer[64] := v;
    result := buffer[..];
    assert result == r + s + [v];
  }

  /** signECDSA in Go: SignCompact puts v first, and the three pieces are copied into place. */
  method goSignatureBytes(sig: ValidSignature) returns (result: Bytes)
    ensures result == SignatureBytes(sig) && Carries(result, sig)
  {
    SignatureCarries(sig);
    var compact := [27 + sig.recovery] + Word(sig.r) + Word(sig.s);
    var r, s := compact[1..33], compact[33..65];
    assert r == Word(sig.r) && s == Word(sig.s);
    result := assemble(r, s, compact[0]);
  }

  /** signECDSA in TypeScript: r and s are converted from bigints, and v is the recovery id plus 27. */
  method tsSignatureBytes(sig: ValidSignature) returns (result: Bytes)
    ensures result == SignatureBytes(sig) && Carries(result, sig)
  {
    SignatureCarries(sig);
    OrderFits(sig.r);
    OrderFits(sig.s);
    var r := scalarToBytes(sig.r);
    var s := scalarToBytes(sig.s);
    result := assemble(r, s, sig.recovery + 27);
  }

  /** normalizeV of the end-to-end test. */
  function NormalizeV(sig: Bytes): Bytes {
    if |sig| == 65 && sig[64] >= 27 then sig[..64] + [sig[64] - 27] else sig
  }

  method normalizeV(sig: Bytes) returns (out: Bytes)
    ensures out == NormalizeV(sig)
    ensures |out| == |sig| && forall i :: 0 <= i < |sig| ==>
              out[i] == if |sig| == 65 && i == 64 && sig[64] >= 27 then sig[64] - 27 else sig[i]
  {
    if |sig| != 65 {
      return sig;
    }
    var buffer := new Byte[65](i requires 0 <= i < 65 => sig[i]);
    if buffer[64] >= 27 {
      buffer[64] := buffer[64] - 27;
    }
    out := buffer[..];
    assert out == NormalizeV(sig);
  }

  lemma NormalizePieces(r: Bytes, s: Bytes, recovery: nat)
    requires |r| == |s| == 32 && recovery < 2
    ensures var v := NormalizeV(r + s + [27 + recovery]);
            |v| == 65 && v[..32] == r && v[32..64] == s && v[64] == recovery
  {
    var sig := r + s + [27 + recovery];
    assert sig[..64] == r + s;
  }

  lemma SignatureRecovered(sig: ValidSignature)
    ensures var v := NormalizeV(SignatureBytes(sig));
            |v| == 65 && Value(v[..32]) == sig.r && Value(v[32..64]) == sig.s && v[64] == sig.recovery
  {
    ScalarWord(sig.r);
    ScalarWord(sig.s);
    NormalizePieces(Word(sig.r), Word(sig.s), sig.recovery);
  }

  /** Whatever bytes carry a signature, normalisation leaves r and s and makes v the recovery id. */
  lemma NormalizedCarries(bytes: Bytes, sig: ValidSignature)
    requires Carries(bytes, sig)
    ensures var v := NormalizeV(bytes);
            |v| == 65 && Value(v[..32]) == sig.r && Value(v[32..64]) == sig.s && v[64] == sig.recovery
  {
    CarriesOnly(bytes, sig);
    SignatureRecovered(sig);
  }

  /**
   What the end-to-end test recovers from the answer to a SIGN request: the message,
   and r, s and the recovery id exactly as the library computed them.
   */
  lemma SignatureReachesTheClient(message: Bytes, sig: ValidSignature)
    requires AbiCodec.EncodedLength(message, SignatureBytes(sig)) < TWO_63
    ensures var decoded := AbiCodec.DecodeTwo(AbiCodec.EncodeTwo(message, SignatureBytes(sig)));
            && decoded.Parts? && decoded.a == message
            && var v := NormalizeV(decoded.b);
               |v| == 65 && Value(v[..32]) == sig.r && Value(v[32..64]) == sig.s && v[64] == sig.recovery
  {
    SignatureRecovered(sig);
    AbiCodec.RoundTrip(message, SignatureBytes(sig));
  }
}
