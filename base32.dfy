/** The base 32 encoding of section 6 of RFC 4648 without padding, as the
    enrollment URL carries the secret. The data is read as one stream of bits,
    most significant bit of each byte first; every 5 bits become one symbol of
    the alphabet A-Z, 2-7, and a last group shorter than 5 bits is filled with
    zero bits. No '=' is appended. */
module Base32 {
  import opened Wrappers
  import opened Numerals

  function Pow2(w: nat): (p: nat)
    ensures p >= 1
  {
    if w == 0 then 1 else 2 * Pow2(w - 1)
  }

  /** The low w bits of n, most significant first. */
  function Bits(n: nat, w: nat): (bs: seq<bool>)
    ensures |bs| == w
  {
    if w == 0 then [] else Bits(n / 2, w - 1) + [n % 2 == 1]
  }

  /** The number a bit string denotes, most significant bit first. */
  function BitsValue(bs: seq<bool>): (v: nat)
    ensures v < Pow2(|bs|)
  {
    if bs == [] then 0 else 2 * BitsValue(bs[..|bs| - 1]) + (if bs[|bs| - 1] then 1 else 0)
  }

  lemma BitsValueSnoc(bs: seq<bool>, b: bool)
    ensures BitsValue(bs + [b]) == 2 * BitsValue(bs) + (if b then 1 else 0)
  {
    assert (bs + [b])[..|bs|] == bs;
  }

  /** Reading the w bits of a number below 2^w gives the number back. */
  lemma {:induction false} BitsRoundTrip(n: nat, w: nat)
    requires n < Pow2(w)
    ensures BitsValue(Bits(n, w)) == n
  {
    if w > 0 {
      BitsRoundTrip(n / 2, w - 1);
      BitsValueSnoc(Bits(n / 2, w - 1), n % 2 == 1);
    }
  }

  /** Writing the value of a bit string in as many bits gives the string back. */
  lemma {:induction false} BitsOfValue(bs: seq<bool>)
    ensures Bits(BitsValue(bs), |bs|) == bs
  {
    if bs != [] {
      var init, last := bs[..|bs| - 1], bs[|bs| - 1];
      assert bs == init + [last];
      var v := BitsValue(bs);
      assert v == 2 * BitsValue(init) + (if last then 1 else 0);
      assert v / 2 == BitsValue(init) && (v % 2 == 1) == last;
      BitsOfValue(init);
    }
  }

  function BytesToBits(data: seq<byte>): (bs: seq<bool>)
    ensures |bs| == 8 * |data|
  {
    if data == [] then [] else Bits(data[0], 8) + BytesToBits(data[1..])
  }

  function BitsToBytes(bs: seq<bool>): (data: seq<byte>)
    requires |bs| % 8 == 0
    ensures |data| == |bs| / 8
    decreases |bs|
  {
    if bs == [] then []
    else
      assert Pow2(8) == 256;
      [BitsValue(bs[..8]) as byte] + BitsToBytes(bs[8..])
  }

  lemma {:induction false} BytesBitsRoundTrip(data: seq<byte>)
    ensures BitsToBytes(BytesToBits(data)) == data
  {
    if data != [] {
      var bs := BytesToBits(data);
      assert bs[..8] == Bits(data[0], 8);
      assert bs[8..] == BytesToBits(data[1..]);
      assert Pow2(8) == 256;
      BitsRoundTrip(data[0], 8);
      BytesBitsRoundTrip(data[1..]);
    }
  }

  /** The symbol for a 5-bit value, from the alphabet of RFC 4648 section 6. */
  function Symbol(v: nat): (c: char)
    requires v < 32
    ensures c == "ABCDEFGHIJKLMNOPQRSTUVWXYZ234567"[v]
  {
    if v < 26 then (65 + v) as char else (50 + v - 26) as char
  }

  predicate IsSymbol(c: char)
  {
    'A' <= c <= 'Z' || '2' <= c <= '7'
  }

  function SymbolValue(c: char): (v: nat)
    requires IsSymbol(c)
    ensures v < 32 && Symbol(v) == c
  {
    if 'A' <= c <= 'Z' then (c as int) - 65 else (c as int) - 50 + 26
  }

  lemma SymbolValueOf(v: nat)
    requires v < 32
    ensures IsSymbol(Symbol(v)) && SymbolValue(Symbol(v)) == v
  {
  }

  function Falses(k: nat): (bs: seq<bool>)
    ensures |bs| == k && forall i :: 0 <= i < k ==> !bs[i]
  {
    seq(k, _ => false)
  }

  /** Zero bits that complete the last 5-bit group. */
  function PadBits(len: nat): (p: nat)
    ensures p < 5 && (len + p) % 5 == 0
  {
    (5 - len % 5) % 5
  }

  lemma PadBitsCases(len: nat)
    ensures 0 < len < 5 ==> PadBits(len) == 5 - len
    ensures len >= 5 ==> PadBits(len) == PadBits(len - 5)
  {
  }

  /** One symbol for every 5 bits, the last group filled with zero bits; the
      output holds only alphabet symbols and is ceil(|bs| / 5) long. */
  function EncodeBits(bs: seq<bool>): (s: string)
    ensures |s| == (|bs| + 4) / 5
    ensures forall i :: 0 <= i < |s| ==> IsSymbol(s[i])
    decreases |bs|
  {
    if bs == [] then []
    else if |bs| < 5 then [Symbol(BitsValue(bs + Falses(5 - |bs|)))]
    else [Symbol(BitsValue(bs[..5]))] + EncodeBits(bs[5..])
  }

  /** Unpadded base 32 of the data (`base32::encode` with
      `Alphabet::RFC4648 { padding: false }`). */
  function Encode(data: seq<byte>): string
  {
    EncodeBits(BytesToBits(data))
  }

  function DecodeBits(s: string): (bs: seq<bool>)
    requires forall i :: 0 <= i < |s| ==> IsSymbol(s[i])
    ensures |bs| == 5 * |s|
  {
    if s == [] then [] else Bits(SymbolValue(s[0]), 5) + DecodeBits(s[1..])
  }

  /** The inverse reading: symbols back to bits, trailing bits that do not
      fill a byte dropped. None when a character is outside the alphabet. */
  function Decode(s: string): Option<seq<byte>>
  {
    if forall i :: 0 <= i < |s| ==> IsSymbol(s[i]) then
      var bs := DecodeBits(s);
      Some(BitsToBytes(bs[..|bs| / 8 * 8]))
    else None
  }

  /** A last group of fewer than 5 bits decodes to itself and its fill. */
  lemma DecodeLastGroup(bs: seq<bool>)
    requires 0 < |bs| < 5
    ensures DecodeBits(EncodeBits(bs)) == bs + Falses(PadBits(|bs|))
  {
    var full := bs + Falses(5 - |bs|);
    var v := BitsValue(full);
    assert Pow2(5) == 32;
    assert EncodeBits(bs) == [Symbol(v)];
    SymbolValueOf(v);
    assert [Symbol(v)][1..] == [];
    assert DecodeBits([Symbol(v)]) == Bits(v, 5) + [];
    assert Bits(v, 5) + [] == Bits(v, 5);
    BitsOfValue(full);
    assert Bits(v, 5) == full;
    PadBitsCases(|bs|);
  }

  /** A full 5-bit group decodes to itself ahead of the rest. */
  lemma DecodeFirstGroup(bs: seq<bool>)
    requires |bs| >= 5
    ensures DecodeBits(EncodeBits(bs)) == bs[..5] + DecodeBits(EncodeBits(bs[5..]))
  {
    var v := BitsValue(bs[..5]);
    assert Pow2(5) == 32;
    var s := EncodeBits(bs);
    var rest := EncodeBits(bs[5..]);
    assert s == [Symbol(v)] + rest;
    assert s[1..] == rest;
    SymbolValueOf(v);
    assert DecodeBits(s) == Bits(v, 5) + DecodeBits(rest);
    BitsOfValue(bs[..5]);
  }

  lemma {:induction false} DecodeEncodeBits(bs: seq<bool>)
    ensures DecodeBits(EncodeBits(bs)) == bs + Falses(PadBits(|bs|))
    decreases |bs|
  {
    if bs == [] {
      assert bs + Falses(0) == [];
    } else if |bs| < 5 {
      DecodeLastGroup(bs);
    } else {
      var f := Falses(PadBits(|bs|));
      DecodeFirstGroup(bs);
      DecodeEncodeBits(bs[5..]);
      PadBitsCases(|bs|);
      assert bs[..5] + (bs[5..] + f) == bs + f;
    }
  }

  lemma TruncateToBytes(n: nat, p: nat)
    requires p < 8
    ensures (8 * n + p) / 8 * 8 == 8 * n
  {
  }

  /** Section 6 encoding is lossless: decoding the unpadded text gives back
      exactly the secret bytes. */
  lemma DecodeEncode(data: seq<byte>)
    ensures Decode(Encode(data)) == Some(data)
  {
    var bits := BytesToBits(data);
    var s := Encode(data);
    DecodeEncodeBits(bits);
    var bs := DecodeBits(s);
    var p := PadBits(|bits|);
    assert p < 5 && |bs| == 8 * |data| + p;
    TruncateToBytes(|data|, p);
    assert |bs| / 8 * 8 == |bits|;
    assert bs[..|bs| / 8 * 8] == bits;
    BytesBitsRoundTrip(data);
  }

  /** The encoded secret is ceil(8n / 5) alphabet symbols and no padding. */
  lemma EncodeShape(data: seq<byte>)
    ensures |Encode(data)| == (8 * |data| + 4) / 5
    ensures forall i :: 0 <= i < |Encode(data)| ==> IsSymbol(Encode(data)[i]) && Encode(data)[i] != '='
  {
  }
}
