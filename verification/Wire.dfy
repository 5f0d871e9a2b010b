/** The packet format of `proto.rs`: a decimal header, two 32-byte fields and a payload. */
module Wire {
  import opened Basics

  const HEADER_SIZE: nat := 75
  const COUNT_DIGITS: nat := 10
  const COUNT_LIMIT: nat := 10_000_000_000

  const START: nat := 0
  const DATA: nat := 1
  const END: nat := 2
  const PARITY: nat := 3
  const UDP: nat := 4

  /** One of the two 32-byte hash fields. */
  type Field = f: Bytes | |f| == 32 witness seq(32, _ => 48)

  const EMPTY_HASH: Field := seq(32, _ => 48)

  datatype Packet = Packet(pkgType: nat, count: nat, pathHash: Field, dataHash: Field, data: Bytes)

  // ---- Decimal numbers ----

  predicate IsDigit(b: Byte) {
    48 <= b <= 57
  }

  function Digit(d: nat): Byte
    requires d < 10
  {
    (48 + d) as Byte
  }

  predicate AllDigits(s: Bytes) {
    forall i :: 0 <= i < |s| ==> IsDigit(s[i])
  }

  /** The number as `{}` prints it: no padding, no leading zero. */
  function Decimal(n: nat): (s: Bytes)
    ensures |s| >= 1 && AllDigits(s)
  {
    if n < 10 then [Digit(n)] else Decimal(n / 10) + [Digit(n % 10)]
  }

  /** The number as `{:0width}` prints it: padded with zeros, but never cut. */
  function PaddedDecimal(n: nat, width: nat): (s: Bytes)
    ensures AllDigits(s) && |s| == Max(width, |Decimal(n)|)
  {
    var digits := Decimal(n);
    seq(Max(0, width - |digits|), _ => 48) + digits
  }

  function DigitsValue(s: Bytes): nat
    requires AllDigits(s)
  {
    if s == [] then 0 else
      var last := |s| - 1;
      assert IsDigit(s[last]);
      10 * DigitsValue(s[..last]) + (s[last] as int - 48)
  }

  /** Rust's `parse` for an unsigned type with largest value `most`: an optional `+`, then at least one digit. */
  function ParseUnsigned(s: Bytes, most: nat): Option<nat> {
    var digits := if |s| > 1 && s[0] == 43 then s[1..] else s;
    if digits != [] && AllDigits(digits) && DigitsValue(digits) <= most
    then Some(DigitsValue(digits))
    else None
  }

  function Pow10(n: nat): nat {
    if n == 0 then 1 else 10 * Pow10(n - 1)
  }

  lemma {:induction false} DigitsValueBelow(s: Bytes)
    requires AllDigits(s)
    ensures DigitsValue(s) < Pow10(|s|)
  {
    if s == [] {
    } else {
      DigitsValueBelow(s[..|s| - 1]);
    }
  }

  lemma {:induction false} DecimalValue(n: nat)
    ensures DigitsValue(Decimal(n)) == n
  {
    if n < 10 {
      assert Decimal(n)[..0] == [];
    } else {
      DecimalValue(n / 10);
      assert Decimal(n)[..|Decimal(n)| - 1] == Decimal(n / 10);
    }
  }

  lemma {:induction false} LeadingZeros(zeros: nat, s: Bytes)
    requires AllDigits(s)
    ensures AllDigits(seq(zeros, _ => 48 as Byte) + s)
    ensures DigitsValue(seq(zeros, _ => 48 as Byte) + s) == DigitsValue(s)
    decreases |s|, zeros
  {
    var z := seq(zeros, _ => 48 as Byte);
    if s != [] {
      LeadingZeros(zeros, s[..|s| - 1]);
      assert (z + s)[..|z + s| - 1] == z + s[..|s| - 1];
    } else if zeros > 0 {
      LeadingZeros(zeros - 1, s);
      assert (z + s)[..|z + s| - 1] == seq(zeros - 1, _ => 48 as Byte) + s;
    }
  }

  /** A number below `10^width` (width > 0) needs at most `width` digits; any other number needs more. */
  lemma {:induction false} DecimalLength(n: nat, width: nat)
    requires width > 0
    ensures |Decimal(n)| <= width <==> n < Pow10(width)
  {
    if width == 1 {
    } else if n >= 10 {
      DecimalLength(n / 10, width - 1);
    } else {
      PowGrows(width);
    }
  }

  lemma {:induction false} PowGrows(width: nat)
    ensures width > 0 ==> Pow10(width) >= 10
    ensures Pow10(width) >= 1
  {
    if width > 0 {
      PowGrows(width - 1);
    }
  }

  lemma CountLimitIsTenDigits()
    ensures Pow10(COUNT_DIGITS) == COUNT_LIMIT
  {
    assert Pow10(5) == 100000;
  }

  /** Printing with padding and parsing back gives the number, whatever the width. */
  lemma PaddedParses(n: nat, width: nat, most: nat)
    requires n <= most
    ensures ParseUnsigned(PaddedDecimal(n, width), most) == Some(n)
  {
    var digits := Decimal(n);
    DecimalValue(n);
    LeadingZeros(Max(0, width - |digits|), digits);
  }

  /** What parses: at least one digit, with or without a plus before them, and a value within the type. */
  lemma ParsesExactly(s: Bytes, most: nat, n: nat)
    ensures ParseUnsigned(s, most) == Some(n) <==>
            && n <= most
            && exists digits :: digits != [] && AllDigits(digits) && (s == digits || s == [43] + digits)
                 && DigitsValue(digits) == n
  {
    hide DigitsValue;
    if ParseUnsigned(s, most) == Some(n) {
      var digits := if |s| > 1 && s[0] == 43 then s[1..] else s;
      assert s == digits || s == [43] + digits;
    }
    if digits :| digits != [] && AllDigits(digits) && (s == digits || s == [43] + digits) && DigitsValue(digits) == n {
      if s == [43] + digits {
        assert s[1..] == digits;
      } else {
        assert IsDigit(s[0]);
      }
    }
  }

  // ---- Packets ----

  /** The bytes `encode_packet` puts on the wire. */
  function Encode(pkgType: nat, count: nat, pathHash: Field, dataHash: Field, payload: Bytes): Bytes {
    Decimal(pkgType) + PaddedDecimal(count, COUNT_DIGITS) + pathHash + dataHash + payload
  }

  function EncodePacket(p: Packet): Bytes {
    Encode(p.pkgType, p.count, p.pathHash, p.dataHash, p.data)
  }

  /** `encode_packet_into` reuses the caller's buffer. */
  class PacketBuffer {
    var bytes: Bytes

    constructor ()
      ensures bytes == []
    {
      bytes := [];
    }

    method EncodeInto(pkgType: nat, count: nat, pathHash: Field, dataHash: Field, payload: Bytes)
      modifies this
      ensures bytes == Encode(pkgType, count, pathHash, dataHash, payload)
    {
      bytes := [];
      bytes := bytes + (Decimal(pkgType) + PaddedDecimal(count, COUNT_DIGITS));
      bytes := bytes + pathHash;
      bytes := bytes + dataHash;
      bytes := bytes + payload;
    }
  }

  /** `decode_packet`: `None` for a datagram shorter than the header or with an unreadable number. */
  function Decode(raw: Bytes): Option<Packet> {
    if |raw| < HEADER_SIZE then None else
      var pkgType := ParseUnsigned(raw[0..1], 255);
      var count := ParseUnsigned(raw[1..11], U64_MAX);
      if pkgType.None? || count.None? then None
      else Some(Packet(pkgType.value, count.value, raw[11..43], raw[43..75], raw[75..]))
  }

  /** Everything the receiver accepts has a one-digit type and a count below 10^10. */
  lemma DecodedRange(raw: Bytes)
    requires Decode(raw).Some?
    ensures Decode(raw).value.pkgType < 10
    ensures Decode(raw).value.count < COUNT_LIMIT
  {
    var t := raw[0..1];
    DigitsValueBelow(t);
    assert Pow10(1) == 10;
    var c := raw[1..11];
    var digits := if c[0] == 43 then c[1..] else c;
    DigitsValueBelow(digits);
    CountLimitIsTenDigits();
    assert Pow10(10) == 10 * Pow10(9);
  }

  /** The round trip succeeds exactly for a one-digit type and a count that fits the ten-digit field. */
  lemma RoundTrip(p: Packet)
    ensures Decode(EncodePacket(p)) == Some(p) <==> p.pkgType < 10 && p.count < COUNT_LIMIT
  {
    var raw := EncodePacket(p);
    if p.pkgType < 10 && p.count < COUNT_LIMIT {
      RoundTripFits(p);
    } else if Decode(raw).Some? {
      DecodedRange(raw);
    }
  }

  lemma RoundTripFits(p: Packet)
    requires p.pkgType < 10 && p.count < COUNT_LIMIT
    ensures Decode(EncodePacket(p)) == Some(p)
  {
    var raw := EncodePacket(p);
    CountLimitIsTenDigits();
    DecimalLength(p.count, COUNT_DIGITS);
    assert raw[0..1] == PaddedDecimal(p.pkgType, 1);
    assert raw[1..11] == PaddedDecimal(p.count, COUNT_DIGITS);
    assert raw[11..43] == p.pathHash;
    assert raw[43..75] == p.dataHash;
    assert raw[75..] == p.data;
    PaddedParses(p.pkgType, 1, 255);
    PaddedParses(p.count, COUNT_DIGITS, U64_MAX);
  }

  /** A count of eleven digits or more never comes back, whatever else the packet holds. */
  lemma LongCountIsLost(p: Packet)
    requires p.count >= COUNT_LIMIT
    ensures Decode(EncodePacket(p)).Some? ==> Decode(EncodePacket(p)).value.count != p.count
  {
    if Decode(EncodePacket(p)).Some? {
      DecodedRange(EncodePacket(p));
    }
  }

  // ---- The parity-count field of START ----

  function EncodeParityField(parityCount: nat): (f: Field)
    requires parityCount <= U64_MAX
  {
    ParityFieldLength(parityCount);
    PaddedDecimal(parityCount, 32)
  }

  function DecodeParityField(f: Bytes): Option<nat> {
    ParseUnsigned(f, U64_MAX)
  }

  lemma ParityFieldLength(n: nat)
    requires n <= U64_MAX
    ensures |PaddedDecimal(n, 32)| == 32
  {
    CountLimitIsTenDigits();
    PowAdd(10, 10);
    PowIncreasing(20, 32);
    DecimalLength(n, 32);
  }

  lemma {:induction false} PowAdd(a: nat, b: nat)
    ensures Pow10(a + b) == Pow10(a) * Pow10(b)
  {
    if a > 0 {
      PowAdd(a - 1, b);
    }
  }

  lemma {:induction false} PowIncreasing(a: nat, b: nat)
    requires a <= b
    ensures Pow10(a) <= Pow10(b)
    decreases b - a
  {
    if a < b {
      PowIncreasing(a, b - 1);
    }
  }

  lemma ZeroField()
    ensures EncodeParityField(0) == EMPTY_HASH
  {
    assert Decimal(0) == [48];
  }

  /** Every `u64` survives the parity field, and zero is spelt like the unused hash. */
  lemma ParityFieldRoundTrip(n: nat)
    requires n <= U64_MAX
    ensures DecodeParityField(EncodeParityField(n)) == Some(n)
    ensures EncodeParityField(n) == EMPTY_HASH <==> n == 0
  {
    hide ParseUnsigned, PaddedDecimal;
    PaddedParses(n, 32, U64_MAX);
    PaddedParses(0, 32, U64_MAX);
    ZeroField();
  }

  /** The layout of a packet on the wire, column by column, with the five type digits. */
  lemma Layout(p: Packet)
    requires p.pkgType < 10 && p.count < COUNT_LIMIT
    ensures var raw := EncodePacket(p);
            && |raw| == 75 + |p.data|
            && raw[0] as int == 48 + p.pkgType
            && ParseUnsigned(raw[1..11], U64_MAX) == Some(p.count) && AllDigits(raw[1..11])
            && raw[11..43] == p.pathHash && raw[43..75] == p.dataHash && raw[75..] == p.data
    ensures START == 0 && DATA == 1 && END == 2 && PARITY == 3 && UDP == 4
  {
    hide ParseUnsigned, PaddedDecimal, DigitsValue;
    CountLimitIsTenDigits();
    DecimalLength(p.count, COUNT_DIGITS);
    PaddedParses(p.count, COUNT_DIGITS, U64_MAX);
    assert EncodePacket(p)[1..11] == PaddedDecimal(p.count, COUNT_DIGITS);
  }
}
