/**
 Decimal text: `uintToString` and `valueToString` on the writing side, `Reader::decodeNumber`
 on the reading side.
 */
module JsonNumber {
  import opened JsonValue
  import opened Optional
  import opened JsonLexer
  import opened Decimals

  newtype uint64 = x: int | 0 <= x <= MAX_LARGEST_UINT

  /** sizeof(UIntToStringBuffer) */
  const BUFFER_SIZE := 25

  /** A 64-bit number has at most twenty digits, so sign, digits and NUL fit the buffer. */
  lemma DecimalFitsBuffer(n: nat)
    requires n <= MAX_LARGEST_UINT
    ensures |Decimal(n)| <= 20 && |Decimal(n)| + 2 <= BUFFER_SIZE
  {
    assert Pow10(10) == 10_000_000_000;
    assert Pow10(15) == 1_000_000_000_000_000;
    assert Pow10(20) == 100_000_000_000_000_000_000;
    DecimalLength(n, 20);
  }

  // ----- writing -----

  /** The text of an integer value: what the writers put in the document. */
  function IntText(i: int): (t: string)
    ensures t != []
  {
    if i < 0 then "-" + Decimal(-i) else Decimal(i)
  }

  /** The digits still to be produced when `n` is left, empty once nothing is left. */
  function Remaining(n: nat): string {
    if n == 0 then [] else Decimal(n)
  }

  lemma PeelDigit(n: nat)
    ensures Decimal(n) == Remaining(n / 10) + [DigitChar(n % 10)]
    ensures Remaining(n) == if n == 0 then [] else Decimal(n)
  {
  }

  lemma MoveDigit(text: string, v: nat, tail: string)
    requires v != 0 && text == Remaining(v) + tail
    ensures text == Remaining(v / 10) + ([DigitChar(v % 10)] + tail)
    ensures |Remaining(v)| == |Remaining(v / 10)| + 1 && v / 10 < v
  {
    hide *;
    PeelDigit(v);
  }

  /** Fills the buffer downwards from `from`; the digits end just before a NUL. */
  method UIntToString(value: uint64, buffer: array<char>, from: nat) returns (current: nat)
    requires |Decimal(value as int)| + 1 <= from <= buffer.Length
    modifies buffer
    ensures current + |Decimal(value as int)| + 1 == from
    ensures buffer[current..from - 1] == Decimal(value as int) && buffer[from - 1] == '\0'
  {
    hide *;
    current := from - 1;
    buffer[current] := '\0';
    current := current - 1;
    buffer[current] := DigitChar(value as int % 10);
    ghost var text := Decimal(value as int);
    PeelDigit(value as int);
    var v: nat := value as int / 10;
    assert buffer[current..from - 1] == [buffer[current]];
    while v != 0
      invariant 0 <= current < from
      invariant text == Remaining(v) + buffer[current..from - 1]
      invariant current + |text| + 1 == from + |Remaining(v)|
      invariant buffer[from - 1] == '\0'
    {
      ghost var tail := buffer[current..from - 1];
      MoveDigit(text, v, tail);
      current := current - 1;
      buffer[current] := DigitChar(v % 10);
      assert buffer[current..from - 1] == [buffer[current]] + tail;
      v := v / 10;
    }
    PeelDigit(0);
  }

  /** `valueToString(LargestInt)`; the most negative value is outside the source's contract. */
  method IntToString(value: int) returns (text: string)
    requires MIN_LARGEST_INT < value <= MAX_LARGEST_INT
    ensures text == IntText(value)
  {
    var buffer := new char[BUFFER_SIZE];
    var magnitude: uint64 := if value < 0 then (-value) as uint64 else value as uint64;
    DecimalFitsBuffer(magnitude as int);
    var current := UIntToString(magnitude, buffer, BUFFER_SIZE);
    if value < 0 {
      current := current - 1;
      buffer[current] := '-';
    }
    text := buffer[current..BUFFER_SIZE - 1];
    assert value < 0 ==> text == ['-'] + buffer[current + 1..BUFFER_SIZE - 1];
  }

  /** `valueToString(LargestUInt)` */
  method LargestUIntToString(value: uint64) returns (text: string)
    ensures text == IntText(value as int)
  {
    var buffer := new char[BUFFER_SIZE];
    DecimalFitsBuffer(value as int);
    var current := UIntToString(value, buffer, BUFFER_SIZE);
    text := buffer[current..BUFFER_SIZE - 1];
  }

  // ----- reading -----

  /** The spelling has a character that only a floating-point number has. */
  predicate LooksDouble(t: string) {
    exists i :: 0 <= i < |t| && DoubleChar(t, i)
  }

  predicate DoubleChar(t: string, i: nat)
    requires i < |t|
  {
    t[i] == '.' || t[i] == 'e' || t[i] == 'E' || t[i] == '+' || (t[i] == '-' && i > 0)
  }

  /** The digits of an integer spelling, its sign removed. */
  function Digits(t: string): (ds: string)
    requires IsNumberText(t) && !LooksDouble(t)
    ensures AllDigits(ds)
  {
    assert forall i :: 0 <= i < |t| && !DoubleChar(t, i) ==> IsDigit(t[i]) || (i == 0 && t[i] == '-');
    if t[0] == '-' then t[1..] else t
  }

  /** The largest magnitude an integer with this spelling's sign may have. */
  function Limit(t: string): int
    requires t != []
  {
    if t[0] == '-' then -MIN_LARGEST_INT else MAX_LARGEST_UINT
  }

  /** Integers up to `maxInt` are stored signed, larger ones unsigned. */
  function IntegerData(negative: bool, magnitude: nat): Data {
    if negative then Int(0 - magnitude)
    else if magnitude <= MAX_INT then Int(magnitude)
    else UInt(magnitude)
  }

  /** `scan` stands for `sscanf("%lf")`, whose result this model leaves open. */
  function DecodeDouble(t: string, scan: string -> Option<real>): Option<Data> {
    match scan(t)
    case None => None
    case Some(r) => Some(Real(r))
  }

  /** An integer spelling is kept exactly unless its magnitude exceeds the 64-bit limit. */
  function DecodeNumber(t: string, scan: string -> Option<real>): (r: Option<Data>)
    requires IsNumberText(t)
    ensures r.Some? ==> r.value.Int? || r.value.UInt? || r.value.Real?
  {
    if LooksDouble(t) || NatOf(Digits(t)) > Limit(t) then DecodeDouble(t, scan)
    else Some(IntegerData(t[0] == '-', NatOf(Digits(t))))
  }

  /** The loop of `decodeNumber` that decides whether the spelling is a floating-point number. */
  method InspectDouble(t: string) returns (isDouble: bool)
    ensures isDouble <==> LooksDouble(t)
  {
    isDouble := false;
    for inspect := 0 to |t|
      invariant isDouble <==> exists i :: 0 <= i < inspect && DoubleChar(t, i)
    {
      isDouble := isDouble || DoubleChar(t, inspect);
    }
  }

  /** Taking one more digit, and that a proper prefix denotes at most a tenth of the whole. */
  lemma NatOfNext(ds: string, k: nat)
    requires AllDigits(ds) && k < |ds|
    ensures NatOf(ds[..k + 1]) == 10 * NatOf(ds[..k]) + DigitValue(ds[k]) <= NatOf(ds)
    ensures k + 1 < |ds| ==> 10 * NatOf(ds[..k + 1]) <= NatOf(ds)
  {
    assert ds[..k + 1][..k] == ds[..k] && ds[..k + 1][k] == ds[k];
    NatOfPrefix(ds, k + 1);
  }

  /**
   The accumulating loop of `decodeNumber`; `None` where it falls back to a double.  The
   accumulator is a `uint64`, so every assignment to it is checked not to wrap; the "not a
   number" error of the loop is never reached.
   */
  method Accumulate(ds: string, maxIntegerValue: uint64) returns (sum: Option<uint64>)
    requires AllDigits(ds) && maxIntegerValue >= 10
    ensures sum.None? <==> NatOf(ds) > maxIntegerValue as int
    ensures sum.Some? ==> sum.value as int == NatOf(ds)
  {
    var threshold := maxIntegerValue / 10;
    var value: uint64 := 0;
    assert NatOf(ds[..0]) == 0 && ds[..|ds|] == ds;
    hide NatOf;
    var current := 0;
    while current < |ds|
      invariant 0 <= current <= |ds|
      invariant value <= maxIntegerValue
      invariant value as int == NatOf(ds[..current])
    {
      NatOfNext(ds, current);
      var c := ds[current];
      current := current + 1;
      if c < '0' || c > '9' {
        assert false;
      }
      var digit := DigitValue(c) as uint64;
      if value >= threshold {
        if value > threshold || current != |ds| || digit > maxIntegerValue % 10 {
          return None;
        }
      }
      value := value * 10 + digit;
    }
    return Some(value);
  }

  /** `Reader::decodeNumber` */
  method ComputeNumber(t: string, scan: string -> Option<real>) returns (decoded: Option<Data>)
    requires IsNumberText(t)
    ensures decoded == DecodeNumber(t, scan)
  {
    hide LooksDouble, DoubleChar, NatOf;
    var isDouble := InspectDouble(t);
    if isDouble {
      return DecodeDouble(t, scan);
    }
    var isNegative := t[0] == '-';
    var maxIntegerValue: uint64 := if isNegative then 0x8000_0000_0000_0000 else 0xFFFF_FFFF_FFFF_FFFF;
    var sum := Accumulate(Digits(t), maxIntegerValue);
    match sum {
      case None => return DecodeDouble(t, scan);
      case Some(value) => return Some(IntegerData(isNegative, value as int));
    }
  }

  // ----- the two directions together -----

  /** What an integer reads back as: a signed value up to 2147483647, an unsigned one above. */
  function Retagged(i: int): Data {
    if i <= 2147483647 then Int(i) else UInt(i)
  }

  /** The spelling of an integer: digits, or a minus sign and digits. */
  predicate IsInteger(t: string) {
    t != [] && forall i :: 0 <= i < |t| ==> '0' <= t[i] <= '9' || (i == 0 && t[i] == '-')
  }

  function IntegerOf(t: string): int
    requires IsInteger(t)
  {
    if t[0] == '-' then 0 - NatOf(t[1..]) else NatOf(t)
  }

  lemma IntegerSpelling(t: string)
    requires IsNumberText(t)
    ensures !LooksDouble(t) <==> IsInteger(t)
    ensures IsInteger(t) ==> IntegerOf(t) == if t[0] == '-' then 0 - NatOf(Digits(t)) else NatOf(Digits(t))
  {
    hide NatOf;
    forall i | 0 <= i < |t| ensures !DoubleChar(t, i) <==> IsDigit(t[i]) || (i == 0 && t[i] == '-') {
    }
  }

  /**
   What a number spelling decodes to: an integer in the range of either 64-bit type keeps its
   number and is signed exactly up to 2147483647; everything else is left to `sscanf`.
   */
  lemma NumberMeaning(t: string, scan: string -> Option<real>)
    requires IsNumberText(t)
    ensures IsInteger(t) && -9223372036854775808 <= IntegerOf(t) <= 2147483647 ==>
              DecodeNumber(t, scan) == Some(Int(IntegerOf(t)))
    ensures IsInteger(t) && 2147483647 < IntegerOf(t) <= 18446744073709551615 ==>
              DecodeNumber(t, scan) == Some(UInt(IntegerOf(t)))
    ensures !IsInteger(t) || IntegerOf(t) < -9223372036854775808 || IntegerOf(t) > 18446744073709551615 ==>
              DecodeNumber(t, scan) == match scan(t) case None => None case Some(r) => Some(Real(r))
  {
    hide NatOf, LooksDouble, Digits;
    IntegerSpelling(t);
  }

  lemma IntTextIsNumber(i: int)
    ensures IsNumberText(IntText(i)) && !LooksDouble(IntText(i))
    ensures Digits(IntText(i)) == Decimal(if i < 0 then -i else i)
    ensures (IntText(i)[0] == '-') == (i < 0)
  {
  }

  /** decodeNumber inverts valueToString on all integers either type can hold. */
  lemma NumberRoundTrip(i: int, scan: string -> Option<real>)
    requires MIN_LARGEST_INT <= i <= MAX_LARGEST_UINT
    ensures IsNumberText(IntText(i))
    ensures DecodeNumber(IntText(i), scan) == Some(Retagged(i))
  {
    IntTextIsNumber(i);
    NatOfDecimal(if i < 0 then -i else i);
  }
}
