/** Decimal and hexadecimal numerals, as the host language prints and reads them. */
module Digits {
  import opened Bytes

  type Base = b: nat | b == 10 || b == 16 witness 10

  function DigitChar(d: nat): char
    requires d < 16
  {
    if d < 10 then ('0' as int + d) as char else ('a' as int + d - 10) as char
  }

  /** The value of a digit in either case, or 16 for any other character. */
  function DigitValue(c: char): (d: nat)
    ensures d <= 16
  {
    if '0' <= c <= '9' then c as int - '0' as int
    else if 'a' <= c <= 'f' then c as int - 'a' as int + 10
    else if 'A' <= c <= 'F' then c as int - 'A' as int + 10
    else 16
  }

  /** Only digits of the base. */
  predicate Numeric(s: string, base: Base) {
    forall i :: 0 <= i < |s| ==> DigitValue(s[i]) < base
  }

  /** Numeric, with letters in lower case. */
  predicate Plain(s: string, base: Base) {
    forall i :: 0 <= i < |s| ==> DigitValue(s[i]) < base && s[i] == DigitChar(DigitValue(s[i]))
  }

  function Reading(s: string, base: Base): nat {
    if s == [] then 0 else base * Reading(s[..|s| - 1], base) + DigitValue(s[|s| - 1])
  }

  /** `n.toString(base)` */
  function Numeral(n: nat, base: Base): string
    decreases n
  {
    if n < base then [DigitChar(n)] else Quotient(n, base); Numeral(n / base, base) + [DigitChar(n % base)]
  }

  function Repeat(c: char, n: nat): (s: string)
    ensures |s| == n
  {
    seq(n, _ => c)
  }

  /** `s.padStart(width, "0")` */
  function PadStart(s: string, width: nat): string {
    if |s| < width then Repeat('0', width - |s|) + s else s
  }

  lemma Quotient(n: nat, base: Base)
    ensures n == base * (n / base) + n % base && n % base < base
    ensures n >= base ==> 0 < n / base < n
  {
    if base == 10 {
      assert n == 10 * (n / 10) + n % 10;
    } else {
      assert n == 16 * (n / 16) + n % 16;
    }
  }

  lemma AppendDigit(s: string, d: nat, base: Base)
    requires Plain(s, base) && d < base
    ensures Plain(s + [DigitChar(d)], base)
    ensures Reading(s + [DigitChar(d)], base) == base * Reading(s, base) + d
  {
    var t := s + [DigitChar(d)];
    assert DigitValue(DigitChar(d)) == d && t[..|s|] == s;
  }

  lemma {:induction false} NumeralReads(n: nat, base: Base)
    ensures Plain(Numeral(n, base), base) && Numeral(n, base) != []
    ensures Reading(Numeral(n, base), base) == n
    decreases n
  {
    hide Plain, Reading, DigitChar;
    Quotient(n, base);
    if n >= base {
      NumeralReads(n / base, base);
      AppendDigit(Numeral(n / base, base), n % base, base);
    } else {
      NoDigits(base);
      AppendDigit([], n, base);
      assert [] + [DigitChar(n)] == [DigitChar(n)];
    }
  }

  lemma NoDigits(base: Base)
    ensures Plain([], base) && base * Reading([], base) == 0
  {
  }

  lemma {:induction false} ZerosRead(n: nat, s: string, base: Base)
    ensures Reading(Repeat('0', n) + s, base) == Reading(s, base)
  {
    var t := Repeat('0', n) + s;
    if s != [] {
      assert t[..|t| - 1] == Repeat('0', n) + s[..|s| - 1];
      ZerosRead(n, s[..|s| - 1], base);
    } else if n > 0 {
      assert t[..|t| - 1] == Repeat('0', n - 1) + [];
      ZerosRead(n - 1, [], base);
    }
  }

  /** Padding changes neither the value nor the kind of the digits. */
  lemma PaddedReads(n: nat, base: Base, width: nat)
    ensures var s := PadStart(Numeral(n, base), width);
            Plain(s, base) && s != [] && Reading(s, base) == n
  {
    hide Numeral, Reading;
    NumeralReads(n, base);
    ZerosRead(if |Numeral(n, base)| < width then width - |Numeral(n, base)| else 0, Numeral(n, base), base);
  }

  lemma {:induction false} PlainUnique(s: string, t: string, base: Base)
    requires Plain(s, base) && Plain(t, base) && |s| == |t| && Reading(s, base) == Reading(t, base)
    ensures s == t
  {
    if s != [] {
      var n := |s| - 1;
      LastDigit(Reading(s[..n], base), DigitValue(s[n]), Reading(t[..n], base), DigitValue(t[n]), base);
      PlainUnique(s[..n], t[..n], base);
      assert s == s[..n] + [s[n]] && t == t[..n] + [t[n]];
    }
  }

  lemma LastDigit(x: nat, d: nat, y: nat, e: nat, base: Base)
    requires d < base && e < base && base * x + d == base * y + e
    ensures x == y && d == e
  {
    if base == 10 {
      assert 10 * x + d == 10 * y + e;
    } else {
      assert 16 * x + d == 16 * y + e;
    }
  }

  /** A numeral below base^width has at most `width` digits. */
  lemma {:induction false} NumeralFits(n: nat, width: nat)
    requires 0 < width && n < Pow256(width)
    ensures |Numeral(n, 16)| <= 2 * width
    decreases width
  {
    if width > 1 && n >= 256 {
      NumeralFits(n / 256, width - 1);
      assert n / 16 / 16 == n / 256;
    }
  }

  function Pow10(n: nat): (p: nat)
    ensures p > 0
  {
    if n == 0 then 1 else 10 * Pow10(n - 1)
  }

  lemma {:induction false} DecimalFits(n: nat, width: nat)
    requires 0 < width && n < Pow10(width)
    ensures |Numeral(n, 10)| <= width
    decreases width
  {
    if width > 1 && n >= 10 {
      DecimalFits(n / 10, width - 1);
    }
  }

  /** `s` comes before `t` in the order of texts, at the first place where they differ. */
  ghost predicate Before(s: string, t: string) {
    exists p :: 0 <= p < |s| && p < |t| && s[..p] == t[..p] && s[p] < t[p]
  }

  /** Numerals of one length are ordered as texts as they are as numbers. */
  lemma {:induction false} TextOrder(s: string, t: string, base: Base)
    requires Plain(s, base) && Plain(t, base) && |s| == |t| && Reading(s, base) < Reading(t, base)
    ensures Before(s, t)
  {
    if s != [] {
      var n := |s| - 1;
      var s0, t0 := s[..n], t[..n];
      if Reading(s0, base) < Reading(t0, base) {
        TextOrder(s0, t0, base);
        var p :| 0 <= p < n && s0[..p] == t0[..p] && s0[p] < t0[p];
        assert s[..p] == s0[..p] && t[..p] == t0[..p];
      } else {
        SameFront(Reading(s0, base), DigitValue(s[n]), Reading(t0, base), DigitValue(t[n]), base);
        PlainUnique(s0, t0, base);
      }
    }
  }

  lemma SameFront(x: nat, d: nat, y: nat, e: nat, base: Base)
    requires d < base && e < base && base * x + d < base * y + e && x >= y
    ensures x == y && d < e
  {
    if base == 10 {
      assert 10 * x + d < 10 * y + e;
    } else {
      assert 16 * x + d < 16 * y + e;
    }
  }

  // ---- bytes ----

  /** Two lower-case hexadecimal digits a byte. */
  function BytesHex(s: seq<Byte>): (t: string)
    ensures |t| == 2 * |s|
  {
    if s == [] then []
    else
      var b := s[|s| - 1];
      BytesHex(s[..|s| - 1]) + [DigitChar(b / 16), DigitChar(b % 16)]
  }

  lemma {:induction false} BytesHexReads(s: seq<Byte>)
    ensures Plain(BytesHex(s), 16) && Reading(BytesHex(s), 16) == BeValue(s)
  {
    if s != [] {
      var front, b := s[..|s| - 1], s[|s| - 1];
      BytesHexReads(front);
      AppendDigit(BytesHex(front), b / 16, 16);
      AppendDigit(BytesHex(front) + [DigitChar(b / 16)], b % 16, 16);
      assert BytesHex(s) == BytesHex(front) + [DigitChar(b / 16)] + [DigitChar(b % 16)];
    }
  }

  /** The padded hexadecimal numeral of a value is the hexadecimal text of its bytes. */
  lemma PaddedNumeralIsBytesHex(s: seq<Byte>)
    requires s != []
    ensures PadStart(Numeral(BeValue(s), 16), 2 * |s|) == BytesHex(s)
  {
    BytesHexReads(s);
    BeValueBound(s);
    NumeralFits(BeValue(s), |s|);
    PaddedReads(BeValue(s), 16, 2 * |s|);
    PlainUnique(PadStart(Numeral(BeValue(s), 16), 2 * |s|), BytesHex(s), 16);
  }
}
