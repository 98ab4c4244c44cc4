/** From a DER signature to the 64 compact bytes with the lower of the two values of s. */
module Signature {
  import opened Bytes
  import opened Wrappers
  import opened Digits
  import FieldHash

  /** The order of the P-256 group. */
  const P256_N: nat := 0xffffffff00000000ffffffffffffffffbce6faada7179e84f3b9cac2fc632551
  const P256_N_HALF: nat := P256_N / 2

  const SEQUENCE_TAG: Byte := 0x30
  const INTEGER_TAG: Byte := 0x02

  datatype SignatureError = NotSequence | IntegerExpectedForR | IntegerExpectedForS

  // ---- buffers and integers ----

  function PadOrTrimTo32(raw: seq<Byte>): Bytes32 {
    if |raw| <= 32 then Zeros(32 - |raw|) + raw else raw[|raw| - 32..]
  }

  method BufToBigInt(buf: Bytes32) returns (n: nat)
    ensures n == BeValue(buf)
  {
    var hex := "";
    for i := 0 to |buf|
      invariant hex == BytesHex(buf[..i])
    {
      hex := hex + PadStart(Numeral(buf[i], 16), 2);
      ByteText(buf[i]);
      assert buf[..i + 1][..i] == buf[..i];
    }
    n := Reading(hex, 16);
    assert buf[..|buf|] == buf;
    BytesHexReads(buf);
  }

  lemma ByteText(b: Byte)
    ensures PadStart(Numeral(b, 16), 2) == [DigitChar(b / 16), DigitChar(b % 16)]
  {
  }

  /** `toString(16)` of an integer of either sign. */
  function SignedNumeral(n: int): string {
    if n < 0 then "-" + Numeral(-n, 16) else Numeral(n, 16)
  }

  /** `parseInt` of two characters of such a text, stored in a byte. */
  function PairByte(c: char, d: char): Byte {
    if c == '-' then if DigitValue(d) < 16 then (256 - DigitValue(d)) % 256 else 0
    else if DigitValue(c) >= 16 then 0
    else if DigitValue(d) >= 16 then DigitValue(c)
    else 16 * DigitValue(c) + DigitValue(d)
  }

  /** The first 32 pairs of digits of the padded text; a minus sign lands inside a pair. */
  function Buf32(n: int): Bytes32 {
    var hex := PadStart(SignedNumeral(n), 64);
    seq(32, i requires 0 <= i < 32 => PairByte(hex[2 * i], hex[2 * i + 1]))
  }

  method BigIntToBuf32(n: int) returns (buf: Bytes32)
    ensures buf == Buf32(n)
  {
    var hex := PadStart(SignedNumeral(n), 64);
    var bytes := new Byte[32](_ => 0);
    for i := 0 to 32
      invariant bytes[..i] == Buf32(n)[..i]
    {
      bytes[i] := PairByte(hex[2 * i], hex[2 * i + 1]);
      assert bytes[..i + 1] == bytes[..i] + [bytes[i]];
    }
    buf := bytes[..];
  }

  lemma {:induction false} BytesHexAt(s: seq<Byte>, i: nat)
    requires i < |s|
    ensures BytesHex(s)[2 * i] == DigitChar(s[i] / 16) && BytesHex(s)[2 * i + 1] == DigitChar(s[i] % 16)
  {
    if i < |s| - 1 {
      BytesHexAt(s[..|s| - 1], i);
    }
  }

  /** Within 32 bytes, the buffer is the value's big-endian bytes. */
  lemma Buf32IsBigEndian(n: nat)
    requires n < Pow256(32)
    ensures Buf32(n) == BeBytes(n, 32)
  {
    hide BeBytes, BeValue, BytesHex, PadStart, Numeral, Pow256;
    var b: Bytes32 := BeBytes(n, 32);
    PaddedNumeralIsBytesHex(b);
    forall i | 0 <= i < 32 ensures Buf32(n)[i] == b[i] {
      BytesHexAt(b, i);
    }
  }

  // ---- the conversion ----

  function LowS(s: Bytes32): Bytes32 {
    if BeValue(s) > P256_N_HALF then Buf32(P256_N - BeValue(s)) else s
  }

  /** The bytes after the tag and length byte at `o`; none when the length byte is missing. */
  function ContentAt(der: seq<Byte>, o: nat): seq<Byte> {
    if o + 1 < |der| then Clamped(der, o + 2, o + 2 + der[o + 1]) else []
  }

  function Compact(der: seq<Byte>): Result<seq<Byte>, SignatureError> {
    if |der| == 0 || der[0] != SEQUENCE_TAG then Err(NotSequence)
    else if |der| <= 2 || der[2] != INTEGER_TAG then Err(IntegerExpectedForR)
    else
      var o: int := if |der| == 3 then 3 else 4 + (der[3] as int);
      if o >= |der| || der[o] != INTEGER_TAG then Err(IntegerExpectedForS)
      else Ok(PadOrTrimTo32(ContentAt(der, 2)) + LowS(PadOrTrimTo32(ContentAt(der, o))))
  }

  /** Both halves in one buffer, the second one lowered if need be. */
  method LowSCompact(r: Bytes32, s: Bytes32) returns (bytes: seq<Byte>)
    ensures bytes == r + LowS(s)
  {
    hide Buf32, BeValue;
    var sBigInt := BufToBigInt(s);
    var compact := new Byte[64](_ => 0);
    forall k | 0 <= k < 32 {
      compact[k] := r[k];
    }
    var low := s;
    if sBigInt > P256_N_HALF {
      low := BigIntToBuf32(P256_N - sBigInt);
    }
    forall k | 0 <= k < 32 {
      compact[32 + k] := low[k];
    }
    bytes := compact[..];
    assert bytes[..32] == r && bytes[32..] == low;
  }

  method DerToCompact(der: seq<Byte>) returns (result: Result<seq<Byte>, SignatureError>)
    ensures result == Compact(der)
  {
    hide LowS, PadOrTrimTo32;
    if |der| == 0 || der[0] != SEQUENCE_TAG {
      return Err(NotSequence);
    }
    var offset := 2;
    if offset >= |der| || der[offset] != INTEGER_TAG {
      return Err(IntegerExpectedForR);
    }
    offset := offset + 1;
    if offset >= |der| {
      return Err(IntegerExpectedForS);
    }
    var rLen := der[offset];
    offset := offset + 1;
    var rRaw := Clamped(der, offset, offset + rLen);
    offset := offset + rLen;
    if offset >= |der| || der[offset] != INTEGER_TAG {
      return Err(IntegerExpectedForS);
    }
    offset := offset + 1;
    var sRaw := [];
    if offset < |der| {
      var sLen := der[offset];
      offset := offset + 1;
      sRaw := Clamped(der, offset, offset + sLen);
    }
    var compact := LowSCompact(PadOrTrimTo32(rRaw), PadOrTrimTo32(sRaw));
    result := Ok(compact);
  }

  // ---- what the parts do to any bytes ----

  /** Padding keeps the value of any bytes, and trimming keeps it modulo 2^256. */
  lemma PadOrTrimValue(raw: seq<Byte>)
    ensures BeValue(PadOrTrimTo32(raw)) == BeValue(raw) % Pow256(32)
  {
    hide Pow256, BeValue;
    BeValueBound(PadOrTrimTo32(raw));
    if |raw| <= 32 {
      BeValueZeroPadded(32 - |raw|, raw);
      Remainder(0, Pow256(32), BeValue(raw));
    } else {
      var front, low := raw[..|raw| - 32], raw[|raw| - 32..];
      assert raw == front + low;
      BeValueConcat(front, low);
      Remainder(BeValue(front), Pow256(32), BeValue(low));
    }
  }

  lemma Remainder(q: nat, d: nat, r: nat)
    requires r < d
    ensures (q * d + r) % d == r
  {
    QuotientUnique(q, d, r, (q * d + r) / d, (q * d + r) % d);
  }

  lemma QuotientUnique(q: int, d: int, r: int, q': int, r': int)
    requires 0 <= r < d && 0 <= r' < d && q * d + r == q' * d + r'
    ensures r == r'
  {
    assert (q - q') * d == r' - r && (q' - q) * d == r - r';
    if q - q' >= 1 {
      AtLeast(q - q', d);
    } else if q' - q >= 1 {
      AtLeast(q' - q, d);
    }
  }

  /** The lower of s and n - s, for any s up to n. */
  lemma LowSValue(s: Bytes32)
    requires BeValue(s) <= P256_N
    ensures BeValue(LowS(s)) == if 2 * BeValue(s) > P256_N then P256_N - BeValue(s) else BeValue(s)
    ensures 2 * BeValue(LowS(s)) <= P256_N
  {
    hide BeValue, Buf32;
    FieldHash.WidthFacts();
    if BeValue(s) > P256_N_HALF {
      Buf32IsBigEndian(P256_N - BeValue(s));
    }
  }

  /** Exactly what is accepted: a SEQUENCE tag, any length byte, an INTEGER in full, and the tag of another. */
  lemma AcceptedIff(der: seq<Byte>)
    ensures Compact(der).Ok? <==>
            exists length: Byte, r: seq<Byte>, rest: seq<Byte> ::
              |r| < 256 && der == [SEQUENCE_TAG, length, INTEGER_TAG, |r|] + r + [INTEGER_TAG] + rest
    ensures Compact(der) == Err(NotSequence) <==> !([SEQUENCE_TAG] <= der)
    ensures Compact(der) == Err(IntegerExpectedForR) <==> [SEQUENCE_TAG] <= der && !(|der| > 2 && der[2] == 0x02)
  {
    hide PadOrTrimTo32, LowS;
    if Compact(der).Ok? {
      var n: int := der[3];
      var r, rest := der[4..4 + n], der[5 + n..];
      assert der == [SEQUENCE_TAG, der[1], INTEGER_TAG, |r|] + r + [INTEGER_TAG] + rest;
    }
  }

  // ---- DER, and what the conversion makes of it ----

  /** Section 8.1.3 of ITU-T X.690: a tag and a definite length, up to two length bytes. */
  function Header(tag: Byte, n: nat): seq<Byte>
    requires n < 0x1_0000
  {
    if n < 0x80 then [tag, n] else if n < 0x100 then [tag, 0x81, n] else [tag, 0x82, n / 256, n % 256]
  }

  /** Section 8.3 of ITU-T X.690: the shortest two's complement form of a natural number. */
  function IntegerContent(v: nat): (c: seq<Byte>)
    ensures c != [] && BeValue(c) == v && c[0] < 0x80
    ensures |c| > 1 ==> c[0] != 0 || c[1] >= 0x80
  {
    if v < 0x80 then [v] else IntegerContent(v / 256) + [v % 256]
  }

  lemma {:induction false} IntegerContentFits(v: nat, n: nat)
    requires v < Pow256(n)
    ensures |IntegerContent(v)| <= n + 1
    decreases n
  {
    if v >= 0x80 {
      IntegerContentFits(v / 256, n - 1);
    }
  }

  /** Section 2.2.3 of RFC 3279. */
  function SignatureBody(r: nat, s: nat): seq<Byte>
    requires r < Pow256(32) && s < Pow256(32)
  {
    IntegerContentFits(r, 32);
    IntegerContentFits(s, 32);
    var cr, cs := IntegerContent(r), IntegerContent(s);
    Header(INTEGER_TAG, |cr|) + cr + (Header(INTEGER_TAG, |cs|) + cs)
  }

  /** The body is short enough for a header of two bytes, as the conversion takes for granted. */
  lemma BodyIsShort(r: nat, s: nat)
    requires r < Pow256(32) && s < Pow256(32)
    ensures |SignatureBody(r, s)| <= 70
    ensures |Header(SEQUENCE_TAG, |SignatureBody(r, s)|)| == 2
  {
    hide Pow256, IntegerContent;
    IntegerContentFits(r, 32);
    IntegerContentFits(s, 32);
  }

  /** Padding or trimming an integer's content gives its 32 big-endian bytes. */
  lemma ContentTo32(v: nat)
    requires v < Pow256(32)
    ensures PadOrTrimTo32(IntegerContent(v)) == BeBytes(v, 32)
  {
    hide Pow256, BeValue, BeBytes, IntegerContent;
    var c := IntegerContent(v);
    IntegerContentFits(v, 32);
    if |c| <= 32 {
      BeValueZeroPadded(32 - |c|, c);
    } else {
      BeValueConcat(c[..1], c[1..]);
      assert c == c[..1] + c[1..];
      FirstByte(c);
    }
    BeValueInjective(PadOrTrimTo32(c), BeBytes(v, 32));
  }

  lemma FirstByte(c: seq<Byte>)
    requires |c| == 33 && BeValue(c) < Pow256(32)
    ensures BeValue(c[1..]) == BeValue(c)
  {
    hide Pow256, BeValue;
    assert c == c[..1] + c[1..];
    BeValueConcat(c[..1], c[1..]);
    NoCarry(BeValue(c[..1]), Pow256(32), BeValue(c[1..]));
  }

  lemma NoCarry(lead: int, p: int, rest: int)
    requires lead >= 0 && p > 0 && rest >= 0 && lead * p + rest < p
    ensures lead == 0
  {
    if lead >= 1 {
      AtLeast(lead, p);
    }
  }

  lemma AtLeast(lead: int, p: int)
    requires lead >= 1 && p >= 0
    ensures lead * p >= p
  {
  }

  /** Where the conversion finds the two contents. */
  lemma ContentsRead(cr: seq<Byte>, cs: seq<Byte>, length: Byte)
    requires |cr| < 0x80 && |cs| < 0x80
    ensures var der := [SEQUENCE_TAG, length] + (Header(INTEGER_TAG, |cr|) + cr + (Header(INTEGER_TAG, |cs|) + cs));
            Compact(der) == Ok(PadOrTrimTo32(cr) + LowS(PadOrTrimTo32(cs)))
  {
    hide PadOrTrimTo32, LowS;
    var der := [SEQUENCE_TAG, length] + (Header(INTEGER_TAG, |cr|) + cr + (Header(INTEGER_TAG, |cs|) + cs));
    var o := 4 + |cr|;
    assert der == [SEQUENCE_TAG, length, INTEGER_TAG, |cr|] + cr + [INTEGER_TAG, |cs|] + cs;
    assert der[4..o] == cr;
    assert der[o..o + 2] == [INTEGER_TAG, |cs|];
    assert der[o + 2..] == cs;
    assert der[o] == der[o..o + 2][0] && der[o + 1] == der[o..o + 2][1];
    assert |der| == o + 2 + |cs|;
    assert ContentAt(der, 2) == cr && ContentAt(der, o) == cs;
  }

  /**
   For every signature (r, s) the conversion of its DER form is r and the lower of s and n - s,
   in 32 bytes each.
   */
  lemma CompactOfDer(r: nat, s: nat)
    requires 1 <= r < P256_N && 1 <= s < P256_N
    ensures P256_N < Pow256(32)
    ensures var body := SignatureBody(r, s);
            var low := if s > P256_N_HALF then P256_N - s else s;
            && |body| < 0x1_0000
            && Compact(Header(SEQUENCE_TAG, |body|) + body) == Ok(BeBytes(r, 32) + BeBytes(low, 32))
            && low <= P256_N_HALF
  {
    hide BeBytes, BeValue, IntegerContent, Buf32, PadOrTrimTo32, Compact, Pow256;
    FieldHash.WidthFacts();
    BodyIsShort(r, s);
    IntegerContentFits(r, 32);
    IntegerContentFits(s, 32);
    ContentsRead(IntegerContent(r), IntegerContent(s), |SignatureBody(r, s)|);
    ContentTo32(r);
    ContentTo32(s);
    if s > P256_N_HALF {
      Buf32IsBigEndian(P256_N - s);
    }
  }
}
