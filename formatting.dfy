/** The small part of Rust's `format!` the bridge relies on: integers written in base 10
    (`{}`) or lowercase base 16 (`{:x}`), right-aligned to a minimum width with spaces
    (`{:4}`, `{:4x}`) or with zeros (`{:04x}`). */
module Formatting {
  import opened Common

  predicate IsDigitChar(c: char)
  {
    '0' <= c <= '9' || 'a' <= c <= 'f'
  }

  /** The character Rust writes for digit `d` (lowercase for hexadecimal). */
  function DigitChar(d: nat): (c: char)
    requires d < 16
    ensures IsDigitChar(c)
    ensures d < 10 <==> '0' <= c <= '9'
  {
    if d < 10 then ('0' as int + d) as char else ('a' as int + (d - 10)) as char
  }

  function DigitValue(c: char): (d: nat)
    requires IsDigitChar(c)
    ensures d < 16
  {
    if c <= '9' then c as int - '0' as int else c as int - 'a' as int + 10
  }

  /** `n` in base `base` without leading zeros: `format!("{}", n)` for base 10 and
      `format!("{:x}", n)` for base 16. */
  function Digits(n: nat, base: nat): (s: string)
    requires 2 <= base <= 16
    ensures |s| >= 1
    ensures forall i :: 0 <= i < |s| ==> IsDigitChar(s[i])
    decreases n
  {
    if n < base then [DigitChar(n)]
    else
      DivShrinks(n, base);
      Digits(n / base, base) + [DigitChar(n % base)]
  }

  /** Reads a string of digits back as a number; the inverse of `Digits`. */
  function ParseDigits(s: string, base: nat): nat
    requires 2 <= base <= 16
    requires forall i :: 0 <= i < |s| ==> IsDigitChar(s[i])
  {
    if s == [] then 0 else ParseDigits(s[..|s| - 1], base) * base + DigitValue(s[|s| - 1])
  }

  function Dec(n: nat): string { Digits(n, 10) }

  function Hex(n: nat): string { Digits(n, 16) }

  /** Right-aligns `s` to at least `width` characters with `fill`, as Rust does for
      numbers. */
  function PadLeft(s: string, width: nat, fill: char): string
  {
    if |s| >= width then s else seq(width - |s|, _ => fill) + s
  }

  /** Padding keeps `s` as the suffix, fills only in front of it, and yields exactly
      `width` characters when `s` is shorter. */
  lemma PadLeftSpec(s: string, width: nat, fill: char)
    ensures var r := PadLeft(s, width, fill);
      && |r| == (if |s| >= width then |s| else width)
      && r[|r| - |s|..] == s
      && forall i :: 0 <= i < |r| - |s| ==> r[i] == fill
  {
  }

  /** `format!("{:04x}", n)`. */
  function HexZeroPad4(n: u16): string { PadLeft(Hex(n), 4, '0') }

  /** `format!("{:4x}", n)`. */
  function HexSpacePad4(n: u16): string { PadLeft(Hex(n), 4, ' ') }

  /** `format!("{:4}", n)`. */
  function DecSpacePad4(n: u16): string { PadLeft(Dec(n), 4, ' ') }

  /** Writing a number and reading it back gives the number. */
  lemma {:induction false} DigitsRoundTrip(n: nat, base: nat)
    requires 2 <= base <= 16
    ensures ParseDigits(Digits(n, base), base) == n
    decreases n
  {
    if n >= base {
      var q, r := n / base, n % base;
      var t, c := Digits(q, base), DigitChar(r);
      DivShrinks(n, base);
      assert Digits(n, base) == t + [c];
      assert ParseDigits(t + [c], base) == q * base + r by {
        DigitsRoundTrip(q, base);
        DigitValueOfDigitChar(r);
        ParseDigitsSnoc(t, c, base);
      }
      assert q * base + r == n by {
        DivMod(n, base);
      }
    } else {
      DigitValueOfDigitChar(n);
      assert ParseDigits([DigitChar(n)], base) == ParseDigits([], base) * base + DigitValue(DigitChar(n));
    }
  }

  lemma DivShrinks(n: nat, base: nat)
    requires 2 <= base <= n
    ensures 1 <= n / base < n && n % base < base
  {
  }

  lemma DivMod(n: nat, base: nat)
    requires base > 0
    ensures n == (n / base) * base + n % base
  {
  }

  lemma DigitValueOfDigitChar(d: nat)
    requires d < 16
    ensures DigitValue(DigitChar(d)) == d
  {
  }

  lemma ParseDigitsSnoc(t: string, c: char, base: nat)
    requires 2 <= base <= 16
    requires forall i :: 0 <= i < |t| ==> IsDigitChar(t[i])
    requires IsDigitChar(c)
    ensures ParseDigits(t + [c], base) == ParseDigits(t, base) * base + DigitValue(c)
  {
    assert (t + [c])[..|t|] == t;
  }

  /** Distinct numbers are written differently. */
  lemma DigitsInjective(n: nat, m: nat, base: nat)
    requires 2 <= base <= 16
    requires Digits(n, base) == Digits(m, base)
    ensures n == m
  {
    DigitsRoundTrip(n, base);
    DigitsRoundTrip(m, base);
  }

  /** Padding cannot make two different strings equal, as long as neither contains the
      fill character. */
  lemma PadLeftInjective(s: string, t: string, width: nat, fill: char)
    requires fill !in s && fill !in t && |s| >= 1 && |t| >= 1
    requires PadLeft(s, width, fill) == PadLeft(t, width, fill)
    ensures s == t
  {
    var r := PadLeft(s, width, fill);
    if |s| < |t| {
      PadLeftAt(t, width, fill, |r| - |t|);
      assert false;
    } else if |t| < |s| {
      PadLeftAt(s, width, fill, |r| - |s|);
      assert false;
    }
    assert s == r[|r| - |s|..] == t;
  }

  lemma PadLeftAt(s: string, width: nat, fill: char, i: nat)
    requires i < |PadLeft(s, width, fill)|
    ensures var r := PadLeft(s, width, fill);
      r[i] == if i < |r| - |s| then fill else s[i - (|r| - |s|)]
  {
  }

  /** Hexadecimal width of a 16-bit value: at most three digits below 0x1000, exactly four
      from there on, led by the digit `n / 0x1000`. */
  lemma HexWidth(n: u16)
    ensures n < 0x1000 ==> |Hex(n)| <= 3
    ensures n >= 0x1000 ==> |Hex(n)| == 4 && Hex(n)[0] == DigitChar(n / 0x1000)
  {
    if n >= 0x10 {
      assert Hex(n) == Hex(n / 0x10) + [DigitChar(n % 0x10)];
      if n >= 0x100 {
        assert Hex(n / 0x10) == Hex(n / 0x100) + [DigitChar(n / 0x10 % 0x10)];
        if n >= 0x1000 {
          assert Hex(n / 0x100) == Hex(n / 0x1000) + [DigitChar(n / 0x100 % 0x10)];
          assert Hex(n / 0x1000) == [DigitChar(n / 0x1000)];
        }
      }
    }
  }

  /** Decimal width of a 16-bit value: at most three digits below 1000, four (led by
      `n / 1000`) up to 9999, and five from 10000. */
  lemma DecWidth(n: u16)
    ensures n < 1000 ==> |Dec(n)| <= 3
    ensures 1000 <= n < 10000 ==> |Dec(n)| == 4 && Dec(n)[0] == DigitChar(n / 1000)
    ensures n >= 10000 ==> |Dec(n)| == 5
  {
    if n >= 10 {
      assert Dec(n) == Dec(n / 10) + [DigitChar(n % 10)];
      if n >= 100 {
        DecStep(n / 10, n / 100);
        if n >= 1000 {
          DecStep(n / 100, n / 1000);
          if n >= 10000 {
            DecStep(n / 1000, n / 10000);
            assert Dec(n / 10000) == [DigitChar(n / 10000)];
          } else {
            assert Dec(n / 1000) == [DigitChar(n / 1000)];
          }
        }
      }
    }
  }

  lemma DecStep(n: nat, q: nat)
    requires n >= 10 && q == n / 10
    ensures Dec(n) == Dec(q) + [DigitChar(n % 10)]
  {
  }

  /** Both four-wide hexadecimal forms of a 16-bit value are exactly four characters. */
  lemma HexPad4Length(n: u16)
    ensures |HexZeroPad4(n)| == 4 && |HexSpacePad4(n)| == 4
  {
    HexWidth(n);
  }

  /** The leading character of the four-wide hexadecimal forms: a space in the
      space-padded form below 0x1000, and in the zero-padded form always the digit
      `n / 0x1000` (a padding zero below 0x1000). */
  lemma HexPad4Leading(n: u16)
    ensures |HexZeroPad4(n)| == 4 && |HexSpacePad4(n)| == 4
    ensures n < 0x1000 ==> HexSpacePad4(n)[0] == ' '
    ensures HexZeroPad4(n)[0] == DigitChar(n / 0x1000)
  {
    HexWidth(n);
    PadLeftAt(Hex(n), 4, ' ', 0);
    PadLeftAt(Hex(n), 4, '0', 0);
  }

  /** The shape of `format!("{:4}", n)` for a 16-bit value: four characters led by a
      space below 1000, four led by the digit `n / 1000` up to 9999, five from 10000. */
  lemma DecSpacePad4Shape(n: u16)
    ensures n < 1000 ==> |DecSpacePad4(n)| == 4 && DecSpacePad4(n)[0] == ' '
    ensures 1000 <= n < 10000 ==> |DecSpacePad4(n)| == 4 && DecSpacePad4(n)[0] == DigitChar(n / 1000)
    ensures n >= 10000 ==> |DecSpacePad4(n)| == 5
  {
    DecWidth(n);
    PadLeftAt(Dec(n), 4, ' ', 0);
  }

  /** `DigitChar` is injective. */
  lemma DigitCharInjective(d: nat, e: nat)
    requires d < 16 && e < 16 && d != e
    ensures DigitChar(d) != DigitChar(e)
  {
    DigitValueOfDigitChar(d);
    DigitValueOfDigitChar(e);
  }
}
