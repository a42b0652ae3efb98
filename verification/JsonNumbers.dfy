/** Printing and decoding of 64-bit integers. */
module JsonNumbers {
  import opened Text
  import opened JsonValue

  // ----- decimal notation -----

  predicate IsDigit(c: char) {
    '0' <= c <= '9'
  }

  predicate AllDigits(t: string) {
    forall i :: 0 <= i < |t| ==> IsDigit(t[i])
  }

  function DigitChar(d: nat): (c: char)
    requires d < 10
    ensures IsDigit(c) && c as int - '0' as int == d
  {
    (d + '0' as int) as char
  }

  /** The decimal numeral of `n`, without leading zeros. */
  function Decimal(n: nat): (t: string)
    ensures t != "" && AllDigits(t)
  {
    if n < 10 then [DigitChar(n)] else Decimal(n / 10) + [DigitChar(n % 10)]
  }

  /** The number a digit string denotes; the empty one denotes 0. */
  function Horner(t: string): nat
    requires AllDigits(t)
  {
    if t == "" then 0
    else Horner(t[..|t| - 1]) * 10 + (t[|t| - 1] as int - '0' as int)
  }

  lemma {:induction false} HornerDecimal(n: nat)
    ensures Horner(Decimal(n)) == n
  {
    if n >= 10 {
      HornerDecimal(n / 10);
      var t := Decimal(n);
      assert t[..|t| - 1] == Decimal(n / 10);
    }
  }

  /** Numerals below ten to the `k` have at most `k` digits. */
  lemma {:induction false} DecimalLength(n: nat, k: nat)
    requires k > 0 && n < Pow10(k)
    ensures |Decimal(n)| <= k
  {
    if n >= 10 {
      DecimalLength(n / 10, k - 1);
    }
  }

  function Pow10(k: nat): nat {
    if k == 0 then 1 else 10 * Pow10(k - 1)
  }

  lemma DecimalLength64(n: nat)
    requires n <= MAX_LARGEST_UINT
    ensures |Decimal(n)| <= 20
  {
    assert Pow10(5) == 100_000;
    assert Pow10(10) == 100_000 * Pow10(5);
    assert Pow10(15) == 100_000 * Pow10(10);
    assert Pow10(20) == 100_000 * Pow10(15);
    DecimalLength(n, 20);
  }

  /** More digits never make a number smaller; one digit or more multiply it by ten at least. */
  lemma {:induction false} HornerMonotone(t: string, k: nat)
    requires AllDigits(t) && k <= |t|
    ensures Horner(t[..k]) <= Horner(t)
    ensures k < |t| ==> Horner(t[..k]) * 10 <= Horner(t)
    decreases |t|
  {
    if k < |t| {
      var u := t[..|t| - 1];
      assert u[..k] == t[..k];
      HornerMonotone(u, k);
    } else {
      assert t[..k] == t;
    }
  }

  // ----- printing -----

  /** The text `valueToString` gives for an integer. */
  function IntegerText(n: int): string {
    if n < 0 then "-" + Decimal(-n) else Decimal(n)
  }

  const BUFFER_SIZE := 25

  /** The digits that are still to be written. */
  function Remaining(v: nat): string {
    if v == 0 then "" else Decimal(v)
  }

  lemma LastDigit(v: nat, tail: string)
    requires v > 0
    ensures Remaining(v) + tail == Remaining(v / 10) + ([DigitChar(v % 10)] + tail)
  {
    assert Decimal(v) == Remaining(v / 10) + [DigitChar(v % 10)];
  }

  lemma FirstDigit(v: nat)
    ensures Decimal(v) + "\0" == Remaining(v / 10) + ([DigitChar(v % 10)] + "\0")
  {
    assert Decimal(v) == Remaining(v / 10) + [DigitChar(v % 10)];
  }

  /** Writes the digits and a final NUL in front of `current`, last digit first. */
  method UintToString(value: nat, buffer: array<char>, current0: nat) returns (current: nat)
    requires value <= MAX_LARGEST_UINT && BUFFER_SIZE <= current0 <= buffer.Length
    modifies buffer
    ensures current0 - 21 <= current <= current0
    ensures buffer[current..current0] == Decimal(value) + "\0"
    ensures buffer[..current] == old(buffer[..current]) && buffer[current0..] == old(buffer[current0..])
  {
    DecimalLength64(value);
    current := current0 - 1;
    buffer[current] := '\0';
    ghost var tail := "\0";
    var v := value;
    current := current - 1;
    buffer[current] := DigitChar(v % 10);
    tail := [DigitChar(v % 10)] + tail;
    assert buffer[current..current0] == tail;
    FirstDigit(v);
    v := v / 10;
    while v != 0
      invariant 0 <= v <= MAX_LARGEST_UINT && current < current0
      invariant current0 - current == |tail|
      invariant Decimal(value) + "\0" == Remaining(v) + tail
      invariant buffer[current..current0] == tail
      invariant buffer[..current] == old(buffer[..current]) && buffer[current0..] == old(buffer[current0..])
    {
      LastDigit(v, tail);
      ghost var before := buffer[current..current0];
      current := current - 1;
      buffer[current] := DigitChar(v % 10);
      assert buffer[current..current0] == [DigitChar(v % 10)] + before;
      tail := [DigitChar(v % 10)] + tail;
      v := v / 10;
    }
  }

  /** `*--current = '-'`. */
  method PutSign(buffer: array<char>, current0: nat) returns (current: nat)
    requires 0 < current0 <= buffer.Length
    modifies buffer
    ensures current == current0 - 1
    ensures buffer[current..] == "-" + old(buffer[current0..])
  {
    current := current0 - 1;
    ghost var after := buffer[current0..];
    buffer[current] := '-';
    assert buffer[current..] == [buffer[current]] + buffer[current0..];
  }

  /** `valueToString` of a signed number: the text between the last write and the NUL. */
  method ValueToString(value: int) returns (text: string)
    requires MIN_LARGEST_INT <= value <= MAX_LARGEST_UINT
    ensures text == IntegerText(value)
  {
    var buffer := new char[BUFFER_SIZE];
    var current: nat;
    if value == MIN_LARGEST_INT {
      // In 64 bits the negation would overflow: the source writes maxLargestInt + 1.
      current := UintToString(0 - value, buffer, BUFFER_SIZE);
      assert buffer[current..] == buffer[current..BUFFER_SIZE];
      current := PutSign(buffer, current);
      SignInFront(value);
    } else if value < 0 {
      current := UintToString(0 - value, buffer, BUFFER_SIZE);
      assert buffer[current..] == buffer[current..BUFFER_SIZE];
      current := PutSign(buffer, current);
      SignInFront(value);
    } else {
      current := UintToString(value, buffer, BUFFER_SIZE);
      assert buffer[current..] == buffer[current..BUFFER_SIZE];
    }
    assert buffer[current..] == IntegerText(value) + "\0";
    PrintedHasNoNul(value);
    CStringOfTerminated(IntegerText(value));
    text := CString(buffer[current..]);
  }

  lemma SignInFront(n: int)
    requires n < 0
    ensures IntegerText(n) + "\0" == "-" + (Decimal(0 - n) + "\0")
  {
  }

  lemma PrintedHasNoNul(n: int)
    ensures '\0' !in IntegerText(n)
  {
    var d := Decimal(if n < 0 then -n else n);
    assert forall i :: 0 <= i < |d| ==> IsDigit(d[i]);
  }

  lemma {:induction false} CStringOfTerminated(t: string)
    requires '\0' !in t
    ensures CString(t + "\0") == t
  {
    if t != "" {
      assert (t + "\0")[1..] == t[1..] + "\0";
      CStringOfTerminated(t[1..]);
    }
  }

  // ----- decoding -----

  /** What `decodeNumber` makes of a token: an integer, or the case for a double. */
  datatype Number = Integer(value: Value) | Floating

  /** The digits of a number token, after its sign. */
  function Magnitude(t: string): string {
    if t != "" && t[0] == '-' then t[1..] else t
  }

  /** The number a token of an optional minus and digits denotes. */
  function NumberOf(t: string): int
    requires AllDigits(Magnitude(t))
  {
    if t != "" && t[0] == '-' then 0 - Horner(Magnitude(t)) else Horner(t)
  }

  /** Integers in the 64-bit range are exact; everything else is left to the double. */
  function DecodeNumber(t: string): Number {
    if AllDigits(Magnitude(t)) && MIN_LARGEST_INT <= NumberOf(t) <= MAX_LARGEST_UINT
    then Integer(NumberValue(NumberOf(t)))
    else Floating
  }

  lemma HornerStep(t: string, k: nat)
    requires 0 < k <= |t| && AllDigits(t[..k - 1]) && IsDigit(t[k - 1])
    ensures AllDigits(t[..k])
    ensures Horner(t[..k]) == Horner(t[..k - 1]) * 10 + (t[k - 1] as int - '0' as int)
  {
    assert t[..k][..k - 1] == t[..k - 1];
  }

  /** The guard against overflow is right: what it turns away exceeds `max`. */
  lemma TooLarge(t: string, k: nat, max: nat)
    requires 0 < k <= |t| && AllDigits(t[..k]) && max >= 10
    requires var value := Horner(t[..k - 1]);
      value >= max / 10 && (value > max / 10 || k != |t| || t[k - 1] as int - '0' as int > max % 10)
    ensures AllDigits(t) ==> Horner(t) > max
  {
    HornerStep(t, k);
    if AllDigits(t) {
      HornerMonotone(t, k);
      assert k == |t| ==> t[..k] == t;
    }
  }

  /** What it lets through does not. */
  lemma StaysBelow(value: nat, digit: nat, max: nat)
    requires digit < 10 && (value < max / 10 || (value == max / 10 && digit <= max % 10))
    ensures value * 10 + digit <= max
  {
  }

  /** `decodeNumber` on the token `document[start..end]`: `value * 10 + digit` stays in 64 bits. */
  method ComputeNumber(document: string, start: nat, end: nat) returns (r: Number)
    requires start < end <= |document|
    ensures r == DecodeNumber(document[start..end])
  {
    ghost var token := document[start..end];
    var current := start;
    var isNegative := document[current] == '-';
    if isNegative {
      current := current + 1;
    }
    ghost var digits := Magnitude(token);
    ghost var first := current;
    assert digits == document[first..end];
    var maxIntegerValue := if isNegative then MAX_LARGEST_INT + 1 else MAX_LARGEST_UINT;
    var threshold := maxIntegerValue / 10;
    var value: nat := 0;
    while current < end
      invariant first <= current <= end
      invariant AllDigits(digits[..current - first])
      invariant value == Horner(digits[..current - first]) && value <= maxIntegerValue
    {
      var c := document[current];
      assert c == digits[current - first];
      current := current + 1;
      if c < '0' || c > '9' {
        assert !AllDigits(digits);
        return Floating;
      }
      var digit: nat := c as int - '0' as int;
      HornerStep(digits, current - first);
      if value >= threshold {
        if value > threshold || current != end || digit > maxIntegerValue % 10 {
          TooLarge(digits, current - first, maxIntegerValue);
          return Floating;
        }
      }
      StaysBelow(value, digit, maxIntegerValue);
      value := value * 10 + digit;
    }
    assert digits[..current - first] == digits;
    if isNegative && value == maxIntegerValue {
      r := Integer(Int(MIN_LARGEST_INT));
    } else if isNegative {
      r := Integer(Int(0 - value));
    } else if value <= MAX_INT {
      r := Integer(Int(value));
    } else {
      r := Integer(UInt(value));
    }
  }

  /** A printed 64-bit integer decodes to itself, the most negative one included. */
  lemma NumberRoundTrip(n: int)
    requires -0x8000_0000_0000_0000 <= n <= 0xFFFF_FFFF_FFFF_FFFF
    ensures DecodeNumber(IntegerText(n)) == Integer(NumberValue(n))
    ensures NumberValue(n) == if n <= 0x7FFF_FFFF then Int(n) else UInt(n)
  {
    HornerDecimal(if n < 0 then -n else n);
    var t := IntegerText(n);
    if n < 0 {
      assert t[1..] == Decimal(-n);
    } else {
      assert IsDigit(t[0]);
    }
  }
}
