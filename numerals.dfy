/** Positional notation as Rust's `{}`, `{:x}` and `{:06}` formats print it
    (digits most significant first, lower-case hex, no leading zeros), and the
    parser that reads such text back. */
module Numerals {

  type byte = x: int | 0 <= x < 256

  /** The digits of n in the given base, most significant first. Zero is the
      single digit 0; any other number has no leading zero. */
  function Digits(n: nat, base: nat): (ds: seq<nat>)
    requires base >= 2
    ensures |ds| >= 1
    ensures forall i :: 0 <= i < |ds| ==> ds[i] < base
    ensures ds[0] == 0 <==> n == 0
    ensures n == 0 ==> ds == [0]
    decreases n
  {
    if n < base then [n]
    else
      DivMod(n, base);
      Digits(n / base, base) + [n % base]
  }

  /** The number a digit sequence denotes, most significant digit first. */
  function Value(ds: seq<nat>, base: nat): nat
  {
    if ds == [] then 0 else Value(ds[..|ds| - 1], base) * base + ds[|ds| - 1]
  }

  lemma DivMod(n: nat, base: nat)
    requires base >= 2
    ensures n / base < n || n == 0
    ensures n >= base ==> n / base >= 1
    ensures n % base < base
    ensures (n / base) * base + n % base == n
  {
  }

  lemma ValueSnoc(ds: seq<nat>, d: nat, base: nat)
    ensures Value(ds + [d], base) == Value(ds, base) * base + d
  {
    assert (ds + [d])[..|ds|] == ds;
  }

  /** Digits is lossless: the digits denote the number they came from. */
  lemma {:induction false} ValueOfDigits(n: nat, base: nat)
    requires base >= 2
    ensures Value(Digits(n, base), base) == n
    decreases n
  {
    if n >= base {
      DivMod(n, base);
      ValueOfDigits(n / base, base);
      ValueSnoc(Digits(n / base, base), n % base, base);
    } else {
      assert [n][..0] == [];
    }
  }

  function Zeros(k: nat): (z: seq<nat>)
    ensures |z| == k && forall i :: 0 <= i < k ==> z[i] == 0
  {
    seq(k, _ => 0)
  }

  /** Leading zero digits do not change the value. */
  lemma {:induction false} ValueLeadingZeros(k: nat, ds: seq<nat>, base: nat)
    ensures Value(Zeros(k) + ds, base) == Value(ds, base)
    decreases |ds|, k
  {
    if ds == [] {
      assert Zeros(k) + ds == Zeros(k);
      if k > 0 {
        assert Zeros(k)[..k - 1] == Zeros(k - 1) + [];
        ValueLeadingZeros(k - 1, [], base);
      }
    } else {
      var all := Zeros(k) + ds;
      assert all[..|all| - 1] == Zeros(k) + ds[..|ds| - 1];
      ValueLeadingZeros(k, ds[..|ds| - 1], base);
    }
  }

  /** The character for a digit below 16: '0'..'9', then 'a'..'f'. */
  function DigitChar(d: nat): (c: char)
    requires d < 16
    ensures d < 10 ==> '0' <= c <= '9'
    ensures d >= 10 ==> 'a' <= c <= 'f'
  {
    if d < 10 then (48 + d) as char else (97 + d - 10) as char
  }

  /** True of the characters that spell a digit of the base (2 to 16). */
  predicate IsDigitChar(c: char, base: nat)
  {
    ('0' <= c <= '9' && (c as int) - 48 < base) || ('a' <= c <= 'f' && (c as int) - 97 + 10 < base)
  }

  function CharDigit(c: char, base: nat): (d: nat)
    requires IsDigitChar(c, base)
    ensures d < base
  {
    if '0' <= c <= '9' then (c as int) - 48 else (c as int) - 97 + 10
  }

  /** n written in the base, as Rust's `{}` (base 10) and `{:x}` (base 16) print it. */
  function Format(n: nat, base: nat): (s: string)
    requires 2 <= base <= 16
  {
    var ds := Digits(n, base);
    seq(|ds|, i requires 0 <= i < |ds| => DigitChar(ds[i]))
  }

  function Parse(s: string, base: nat): nat
    requires forall i :: 0 <= i < |s| ==> IsDigitChar(s[i], base)
  {
    Value(seq(|s|, i requires 0 <= i < |s| => CharDigit(s[i], base)), base)
  }

  function Hex(n: nat): string
  {
    Format(n, 16)
  }

  function Decimal(n: nat): string
  {
    Format(n, 10)
  }

  /** Formatting is lossless: the text reads back as the number, uses only
      digit characters of the base, and has no leading zero. */
  lemma ParseFormat(n: nat, base: nat)
    requires 2 <= base <= 16
    ensures |Format(n, base)| >= 1
    ensures forall i :: 0 <= i < |Format(n, base)| ==> IsDigitChar(Format(n, base)[i], base)
    ensures Parse(Format(n, base), base) == n
    ensures Format(n, base)[0] == '0' <==> n == 0
  {
    var ds := Digits(n, base);
    var s := Format(n, base);
    assert forall i :: 0 <= i < |s| ==> IsDigitChar(s[i], base) && CharDigit(s[i], base) == ds[i];
    assert seq(|s|, i requires 0 <= i < |s| => CharDigit(s[i], base)) == ds;
    ValueOfDigits(n, base);
  }

  /** Rust's `{:0w}`: the text left-padded with '0' to at least w characters. */
  function ZeroPad(s: string, width: nat): (p: string)
    ensures |p| == if |s| >= width then |s| else width
    ensures p[|p| - |s|..] == s
    ensures forall i :: 0 <= i < |p| - |s| ==> p[i] == '0'
  {
    if |s| >= width then s else seq(width - |s|, _ => '0') + s
  }

  /** Zero padding keeps the number: `{:06}` output reads back as the code. */
  lemma ParseZeroPad(n: nat, width: nat)
    ensures var p := ZeroPad(Decimal(n), width);
      (forall i :: 0 <= i < |p| ==> IsDigitChar(p[i], 10)) && Parse(p, 10) == n
  {
    var s := Decimal(n);
    ParseFormat(n, 10);
    var p := ZeroPad(s, width);
    var k := |p| - |s|;
    var dp := seq(|p|, i requires 0 <= i < |p| => CharDigit(p[i], 10));
    var ds := seq(|s|, i requires 0 <= i < |s| => CharDigit(s[i], 10));
    assert dp == Zeros(k) + ds;
    ValueLeadingZeros(k, ds, 10);
  }
}
