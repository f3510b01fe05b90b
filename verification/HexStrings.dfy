/** Hex text, as the TypeScript side reads and writes it. */
module HexStrings {
  import opened ByteStrings

  function HexChar(d: nat): char
    requires d < 16
  {
    "0123456789abcdef"[d]
  }

  predicate IsHex(c: char) {
    '0' <= c <= '9' || 'a' <= c <= 'f' || 'A' <= c <= 'F'
  }

  function HexDigit(c: char): (d: nat)
    requires IsHex(c)
    ensures d < 16
  {
    if '0' <= c <= '9' then c as nat - '0' as nat
    else if 'a' <= c <= 'f' then c as nat - 'a' as nat + 10
    else c as nat - 'A' as nat + 10
  }

  /** Two lower-case digits for each byte. */
  function ToHex(b: Bytes): string {
    if b == [] then [] else [HexChar(b[0] / 16), HexChar(b[0] % 16)] + ToHex(b[1..])
  }

  /** Buffer.from(h, "hex"): it stops at the first pair that is not hex, without an error. */
  function FromHex(h: string): Bytes {
    if |h| < 2 || !IsHex(h[0]) || !IsHex(h[1]) then []
    else [HexDigit(h[0]) * 16 + HexDigit(h[1])] + FromHex(h[2..])
  }

  function BytesToHex(b: Bytes): string {
    "0x" + ToHex(b)
  }

  /** hexToBytes: the 0x prefix is optional. */
  function HexToBytes(h: string): Bytes {
    FromHex(if "0x" <= h then h[2..] else h)
  }

  /** The texts both sides read as the same bytes: 0x and an even number of hex digits of either case. */
  predicate WellFormed(h: string) {
    "0x" <= h && |h| % 2 == 0 && forall i :: 2 <= i < |h| ==> IsHex(h[i])
  }

  /** go-ethereum's hexutil: the prefix is required, with an x of either case. */
  predicate IsGoHex(h: string) {
    |h| >= 2 && h[0] == '0' && (h[1] == 'x' || h[1] == 'X') && |h| % 2 == 0 && forall i :: 2 <= i < |h| ==> IsHex(h[i])
  }

  /** What hexutil makes of such a text; the empty text stands for no bytes. */
  function GoBytes(h: string): Bytes {
    if |h| < 2 then [] else FromHex(h[2..])
  }

  /** With the lower-case prefix both sides read the same bytes. */
  lemma SameBytes(h: string)
    requires WellFormed(h) || h == ""
    ensures GoBytes(h) == HexToBytes(h)
  {
  }

  lemma DigitRoundTrip(d: nat)
    requires d < 16
    ensures IsLowerHex(HexChar(d)) && IsHex(HexChar(d)) && HexDigit(HexChar(d)) == d
  {
  }

  /** The first pair that is not hex ends the bytes; what comes before it counts. */
  lemma {:induction false} FromHexStops(good: string, bad: string)
    requires |good| % 2 == 0 && forall i :: 0 <= i < |good| ==> IsHex(good[i])
    requires |bad| >= 2 ==> !IsHex(bad[0]) || !IsHex(bad[1])
    ensures FromHex(good + bad) == FromHex(good)
  {
    if good == [] {
      assert good + bad == bad;
    } else {
      FromHexStops(good[2..], bad);
      assert (good + bad)[2..] == good[2..] + bad;
    }
  }

  lemma FirstPair(x: Byte, rest: string)
    ensures FromHex([HexChar(x / 16), HexChar(x % 16)] + rest) == [x] + FromHex(rest)
  {
    var text := [HexChar(x / 16), HexChar(x % 16)] + rest;
    DigitRoundTrip(x / 16);
    DigitRoundTrip(x % 16);
    assert text[2..] == rest;
    assert HexDigit(text[0]) * 16 + HexDigit(text[1]) == x;
  }

  lemma {:induction false} HexRoundTrip(b: Bytes)
    ensures FromHex(ToHex(b)) == b
  {
    if b != [] {
      HexRoundTrip(b[1..]);
      FirstPair(b[0], ToHex(b[1..]));
    }
  }

  lemma BytesRoundTrip(b: Bytes)
    ensures HexToBytes(BytesToHex(b)) == b
    ensures HexToBytes(ToHex(b)) == b
  {
    HexRoundTrip(b);
    assert BytesToHex(b)[2..] == ToHex(b);
    ToHexShape(b);
    assert "0x"[1] == 'x';
  }

  predicate IsLowerHex(c: char) {
    '0' <= c <= '9' || 'a' <= c <= 'f'
  }

  /** Texts are written in lower case, two digits for each byte. */
  lemma {:induction false} ToHexShape(b: Bytes)
    ensures |ToHex(b)| == 2 * |b| && forall i :: 0 <= i < |ToHex(b)| ==> IsLowerHex(ToHex(b)[i]) && IsHex(ToHex(b)[i])
  {
    if b != [] {
      DigitRoundTrip(b[0] / 16);
      DigitRoundTrip(b[0] % 16);
      ToHexShape(b[1..]);
    }
  }

  lemma {:induction false} FromHexLength(h: string)
    requires |h| % 2 == 0 && forall i :: 0 <= i < |h| ==> IsHex(h[i])
    ensures 2 * |FromHex(h)| == |h|
  {
    if h != [] {
      FromHexLength(h[2..]);
    }
  }

  /** No digit of a well-formed text is dropped. */
  lemma WellFormedLength(h: string)
    requires WellFormed(h)
    ensures 2 * |HexToBytes(h)| + 2 == |h|
  {
    FromHexLength(h[2..]);
  }

  lemma LowerPairs(a: char, b: char, c: char, d: char)
    requires IsLowerHex(a) && IsLowerHex(b) && IsLowerHex(c) && IsLowerHex(d)
    requires HexDigit(a) * 16 + HexDigit(b) == HexDigit(c) * 16 + HexDigit(d)
    ensures a == c && b == d
  {
  }

  /** Lower-case texts of the same bytes are the same. */
  lemma {:induction false} LowerTextIsUnique(g: string, h: string)
    requires |g| == |h| && |g| % 2 == 0 && FromHex(g) == FromHex(h)
    requires forall i :: 0 <= i < |g| ==> IsLowerHex(g[i]) && IsLowerHex(h[i])
    ensures g == h
  {
    if g != [] {
      assert FromHex(g)[0] == FromHex(h)[0] && FromHex(g)[1..] == FromHex(g[2..]) && FromHex(h)[1..] == FromHex(h[2..]);
      LowerPairs(g[0], g[1], h[0], h[1]);
      LowerTextIsUnique(g[2..], h[2..]);
      assert g == [g[0], g[1]] + g[2..] && h == [h[0], h[1]] + h[2..];
    }
  }

  lemma LowerRoundTrip(h: string)
    requires |h| % 2 == 0 && forall i :: 0 <= i < |h| ==> IsLowerHex(h[i])
    ensures ToHex(FromHex(h)) == h
  {
    FromHexLength(h);
    ToHexShape(FromHex(h));
    HexRoundTrip(FromHex(h));
    LowerTextIsUnique(ToHex(FromHex(h)), h);
  }

  /** A text is written by bytesToHex exactly if it is 0x and an even number of lower-case digits. */
  lemma WrittenExactlyWhen(h: string)
    ensures h == BytesToHex(HexToBytes(h))
            <==> "0x" <= h && |h| % 2 == 0 && forall i :: 2 <= i < |h| ==> IsLowerHex(h[i])
  {
    if h == BytesToHex(HexToBytes(h)) {
      ToHexShape(HexToBytes(h));
    }
    if "0x" <= h && |h| % 2 == 0 && forall i :: 2 <= i < |h| ==> IsLowerHex(h[i]) {
      LowerRoundTrip(h[2..]);
      assert h == "0x" + h[2..];
    }
  }
}
