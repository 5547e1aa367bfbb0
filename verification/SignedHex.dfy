/** The server hash: a digest printed as a signed hexadecimal number (crypto.rs). */
module SignedHex {
  import opened Wrappers
  import opened Bits

  // ----- What a digest is worth

  function Pow256(n: nat): nat { if n == 0 then 1 else 256 * Pow256(n - 1) }

  /** The big-endian two's-complement value. */
  function SignedValue(bytes: seq<byte>): int
    requires bytes != []
  {
    if bytes[0] >= 0x80 then FromBigEndian(bytes) - Pow256(|bytes|) else FromBigEndian(bytes)
  }

  lemma OneMoreByte(bytes: seq<byte>)
    requires bytes != []
    ensures FromBigEndian(bytes) == 256 * FromBigEndian(bytes[..|bytes| - 1]) + bytes[|bytes| - 1]
  {
  }

  lemma ScaledPower(b: byte, n: nat)
    ensures b * Pow256(n + 1) == 256 * (b * Pow256(n))
  {
    assert Pow256(n + 1) == 256 * Pow256(n);
    hide Pow256;
  }

  lemma {:induction false} ValueFromTop(bytes: seq<byte>)
    requires bytes != []
    ensures FromBigEndian(bytes) == bytes[0] * Pow256(|bytes| - 1) + FromBigEndian(bytes[1..])
  {
    if |bytes| > 1 {
      var init := bytes[..|bytes| - 1];
      ValueFromTop(init);
      assert init[1..] == bytes[1..][..|bytes| - 2] && bytes[1..][|bytes| - 2] == bytes[|bytes| - 1];
      hide FromBigEndian;
      OneMoreByte(bytes);
      OneMoreByte(bytes[1..]);
      ScaledPower(bytes[0], |bytes| - 2);
      hide Pow256;
    }
  }

  lemma {:induction false} ValueRange(bytes: seq<byte>)
    ensures FromBigEndian(bytes) < Pow256(|bytes|)
  {
    if bytes != [] {
      ValueRange(bytes[..|bytes| - 1]);
    }
  }

  // ----- Printing

  const DIGITS: string := "0123456789abcdef"

  function HexText(bytes: seq<byte>): string {
    if bytes == [] then ""
    else
      var last := bytes[|bytes| - 1];
      HexText(bytes[..|bytes| - 1]) + [DIGITS[last / 16], DIGITS[last % 16]]
  }

  function TrimZeros(text: string): (trimmed: string)
    ensures trimmed != "" ==> trimmed[0] != '0'
  {
    if text != "" && text[0] == '0' then TrimZeros(text[1..]) else text
  }

  // ----- Reading

  function Digit(c: char): Option<nat> {
    if '0' <= c <= '9' then Some((c - '0') as nat)
    else if 'a' <= c <= 'f' then Some((c - 'a') as nat + 10)
    else None
  }

  /** The digits are those of hexadecimal in lower case, each with its own value. */
  lemma LowercaseDigits(c: char)
    ensures Digit(c).Some? <==> '0' <= c <= '9' || 'a' <= c <= 'f'
    ensures Digit(c).Some? ==> Digit(c).value < 16 && DIGITS[Digit(c).value] == c
  {
  }

  predicate IsHex(text: string) {
    forall i :: 0 <= i < |text| ==> Digit(text[i]).Some?
  }

  function HexValue(text: string): nat
    requires IsHex(text)
  {
    if text == "" then 0 else 16 * HexValue(text[..|text| - 1]) + Digit(text[|text| - 1]).value
  }

  /** Reads an optional minus sign and hexadecimal digits. */
  function Parse(text: string): Option<int> {
    if text != "" && text[0] == '-' then
      if |text| > 1 && IsHex(text[1..]) then
        var magnitude: int := HexValue(text[1..]);
        Some(-magnitude)
      else None
    else if text != "" && IsHex(text) then Some(HexValue(text))
    else None
  }

  /** Zero, or digits without a leading zero after at most a minus sign. */
  predicate Canonical(text: string) {
    || text == "0"
    || (text != "" && text[0] != '-' && text[0] != '0' && IsHex(text))
    || (|text| > 1 && text[0] == '-' && text[1] != '0' && IsHex(text[1..]))
  }

  // ----- The printer and the reader agree

  lemma DigitOf(n: nat)
    requires n < 16
    ensures Digit(DIGITS[n]) == Some(n)
  {
  }

  lemma {:induction false} TextReadsBack(bytes: seq<byte>)
    ensures IsHex(HexText(bytes)) && HexValue(HexText(bytes)) == FromBigEndian(bytes)
  {
    if bytes != [] {
      var init, last := bytes[..|bytes| - 1], bytes[|bytes| - 1];
      TextReadsBack(init);
      DigitOf(last / 16);
      DigitOf(last % 16);
      hide Digit, FromBigEndian;
      Append(HexText(init), DIGITS[last / 16]);
      Append(HexText(init) + [DIGITS[last / 16]], DIGITS[last % 16]);
      assert HexText(bytes) == HexText(init) + [DIGITS[last / 16]] + [DIGITS[last % 16]];
      OneMoreByte(bytes);
    }
  }

  lemma Append(text: string, c: char)
    requires IsHex(text) && Digit(c).Some?
    ensures IsHex(text + [c]) && HexValue(text + [c]) == 16 * HexValue(text) + Digit(c).value
  {
    hide Digit;
    assert (text + [c])[..|text|] == text;
  }

  lemma {:induction false} LeadingZero(text: string)
    requires text != "" && text[0] == '0' && IsHex(text)
    ensures IsHex(text[1..]) && HexValue(text[1..]) == HexValue(text)
  {
    if |text| > 1 {
      var init := text[..|text| - 1];
      assert IsHex(init);
      LeadingZero(init);
      assert init[1..] == text[1..][..|text| - 2];
    } else {
      assert text[..0] == "";
    }
  }

  lemma {:induction false} TrimKeepsValue(text: string)
    requires IsHex(text)
    ensures IsHex(TrimZeros(text)) && HexValue(TrimZeros(text)) == HexValue(text)
  {
    if text != "" && text[0] == '0' {
      LeadingZero(text);
      TrimKeepsValue(text[1..]);
    }
  }

  lemma {:induction false} NoLeadingZeroIsPositive(text: string)
    requires text != "" && text[0] != '0' && IsHex(text)
    ensures HexValue(text) > 0
  {
    if |text| > 1 {
      NoLeadingZeroIsPositive(text[..|text| - 1]);
    }
  }

  lemma {:induction false} DigitsAreUnique(a: string, b: string)
    requires IsHex(a) && IsHex(b) && HexValue(a) == HexValue(b)
    requires (a != "" ==> a[0] != '0') && (b != "" ==> b[0] != '0')
    ensures a == b
  {
    if a == "" || b == "" {
      if a != "" { NoLeadingZeroIsPositive(a); }
      if b != "" { NoLeadingZeroIsPositive(b); }
    } else {
      var i, j := |a| - 1, |b| - 1;
      DigitsAreUnique(a[..i], b[..j]);
      assert a == a[..i] + [a[i]] && b == b[..j] + [b[j]];
    }
  }

  lemma CanonicalSign(text: string)
    requires Canonical(text)
    ensures Parse(text).Some?
    ensures text == "0" ==> Parse(text).value == 0
    ensures text != "0" && text[0] == '-' ==>
      |text| > 1 && text[1] != '0' && IsHex(text[1..]) && Parse(text).value == 0 - HexValue(text[1..]) < 0
    ensures text != "0" && text[0] != '-' ==> text[0] != '0' && IsHex(text) && Parse(text).value == HexValue(text) > 0
  {
    if text == "0" {
      assert text[..0] == "";
    } else if text[0] == '-' {
      NoLeadingZeroIsPositive(text[1..]);
    } else {
      NoLeadingZeroIsPositive(text);
    }
  }

  /** A number has one canonical text. */
  lemma CanonicalIsUnique(a: string, b: string)
    requires Canonical(a) && Canonical(b) && Parse(a) == Parse(b)
    ensures a == b
  {
    CanonicalSign(a);
    CanonicalSign(b);
    hide Digit, HexValue, Parse, Canonical, IsHex;
    if a != "0" && b != "0" {
      if a[0] == '-' {
        DigitsAreUnique(a[1..], b[1..]);
        assert a == "-" + a[1..] && b == "-" + b[1..];
      } else {
        DigitsAreUnique(a, b);
      }
    }
  }

  lemma Assembled(trimmed: string, negative: bool)
    requires IsHex(trimmed) && (trimmed != "" ==> trimmed[0] != '0') && (negative ==> trimmed != "")
    ensures var text := if trimmed == "" then "0" else if negative then "-" + trimmed else trimmed;
      Canonical(text) && Parse(text) == Some(if negative then 0 - HexValue(trimmed) else HexValue(trimmed))
  {
    hide Digit;
    if trimmed == "" {
      NothingIsZero();
    } else if negative {
      assert ("-" + trimmed)[1..] == trimmed;
    } else {
      MinusIsNoDigit(trimmed);
    }
  }

  lemma NothingIsZero()
    ensures Parse("0") == Some(0) && HexValue("") == 0
  {
    CanonicalSign("0");
  }

  lemma MinusIsNoDigit(text: string)
    requires text != "" && IsHex(text)
    ensures text[0] != '-'
  {
  }

  /** Prints the canonical text of the digest's signed value. */
  method SignedHex(input: seq<byte>) returns (text: string)
    requires input != []
    ensures Canonical(text) && Parse(text) == Some(SignedValue(input))
  {
    var digest := new byte[|input|](i requires 0 <= i < |input| => input[i]);
    var negative := digest[0] >= 0x80;
    assert digest[..] == input;
    if negative {
      Negate(digest);
      ValueRange(input);
    }
    TextReadsBack(digest[..]);
    TrimKeepsValue(HexText(digest[..]));
    hide Digit, HexText, FromBigEndian, Parse, Canonical;
    var trimmed := TrimZeros(HexText(digest[..]));
    Assembled(trimmed, negative);
    text := if trimmed == "" then "0" else if negative then "-" + trimmed else trimmed;
  }

  lemma NegateDigit(b: byte, carry: nat, power: nat, done: nat, was: nat)
    requires done + carry * power == power - was
    ensures var value := 255 - b + carry;
      (value % 256) * power + done + (value / 256) * (256 * power) == 256 * power - (b * power + was)
  {
    var value := 255 - b + carry;
    assert value == 256 * (value / 256) + value % 256;
    assert value * power == (256 * (value / 256) + value % 256) * power;
    assert value * power == 255 * power - b * power + carry * power;
  }

  // The low bytes, negated so far, and the carry out of them.
  predicate Negated(done: seq<byte>, was: seq<byte>, carry: nat) {
    && |done| == |was|
    && carry <= 1
    && FromBigEndian(done) + carry * Pow256(|done|) == Pow256(|done|) - FromBigEndian(was)
  }

  // Complementing one more byte and passing the carry on.
  lemma NegateByte(done: seq<byte>, was: seq<byte>, carry: nat, b: byte)
    requires Negated(done, was, carry)
    ensures Negated([(255 - b + carry) % 256] + done, [b] + was, (255 - b + carry) / 256)
  {
    var value := 255 - b + carry;
    var top: byte := value % 256;
    NegateDigit(b, carry, Pow256(|done|), FromBigEndian(done), FromBigEndian(was));
    ValueFromTop([top] + done);
    ValueFromTop([b] + was);
    assert ([top] + done)[1..] == done && ([b] + was)[1..] == was;
    assert Pow256(|done| + 1) == 256 * Pow256(|done|);
    hide FromBigEndian, Pow256;
  }

  // No carry is left over from a negative number.
  lemma NegatedIsMagnitude(done: seq<byte>, was: seq<byte>, carry: nat)
    requires Negated(done, was, carry) && was != [] && was[0] >= 0x80
    ensures FromBigEndian(done) == -SignedValue(was)
  {
    hide FromBigEndian, Pow256;
    NegativeIsNotZero(was);
    var power := Pow256(|done|);
    assert carry == 0 || carry * power == power;
  }

  lemma NegativeIsNotZero(bytes: seq<byte>)
    requires bytes != [] && bytes[0] >= 0x80
    ensures FromBigEndian(bytes) > 0
  {
    hide FromBigEndian, Pow256;
    ValueFromTop(bytes);
    PowPositive(|bytes| - 1);
    var power := Pow256(|bytes| - 1);
    assert bytes[0] * power >= 0x80 * power;
  }

  lemma PowPositive(n: nat)
    ensures Pow256(n) > 0
  {
  }

  /** Replaces a negative number by its magnitude, in place. */
  method Negate(digest: array<byte>)
    requires digest.Length > 0 && digest[0] >= 0x80
    modifies digest
    ensures FromBigEndian(digest[..]) == -SignedValue(old(digest[..]))
  {
    ghost var before := digest[..];
    var carry: nat := 1;
    var i := digest.Length;
    assert Negated(digest[i..], before[i..], carry);
    hide Negated, FromBigEndian, SignedValue;
    while i > 0
      invariant 0 <= i <= digest.Length && 0 <= carry <= 1
      invariant digest[..i] == before[..i]
      invariant Negated(digest[i..], before[i..], carry)
    {
      i := i - 1;
      ghost var done := digest[i + 1..];
      assert digest[i] == digest[..i + 1][i] == before[..i + 1][i] == before[i];
      NegateByte(done, before[i + 1..], carry, before[i]);
      var value: int := 255 - digest[i] + carry;
      digest[i] := value % 256;
      carry := value / 256;
      assert digest[i..] == [value % 256] + done && before[i..] == [before[i]] + before[i + 1..];
      assert digest[..i] == before[..i];
    }
    assert digest[0..] == digest[..] && before[0..] == before;
    NegatedIsMagnitude(digest[..], before, carry);
  }
}
