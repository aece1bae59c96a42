/**
  Integers as JSON text: `uintToString` and `valueToString`, which fill a buffer
  from its end, and `Reader::decodeNumber`, which must neither overflow 64 bits
  nor give up on a number that fits.
 */
module JsonNumber {
  import opened JsonValue

  const MAX_LARGEST_UINT := 0xFFFF_FFFF_FFFF_FFFF
  const MAX_LARGEST_INT := 0x7FFF_FFFF_FFFF_FFFF
  const MIN_LARGEST_INT := -0x8000_0000_0000_0000
  const MAX_INT := 0x7FFF_FFFF
  const MINUS: Byte := 45
  const ZERO: Byte := 48

  predicate IsDigit(b: Byte) {
    ZERO <= b <= 57
  }

  predicate AllDigits(s: Bytes) {
    forall i :: 0 <= i < |s| ==> IsDigit(s[i])
  }

  /** The number a digit string denotes (0 for the empty one). */
  function Decimal(s: Bytes): nat
    requires AllDigits(s)
  {
    if s == [] then 0 else Decimal(s[..|s| - 1]) * 10 + (s[|s| - 1] - ZERO)
  }

  lemma DecimalSnoc(s: Bytes, c: Byte)
    requires AllDigits(s) && IsDigit(c)
    ensures AllDigits(s + [c]) && Decimal(s + [c]) == Decimal(s) * 10 + (c - ZERO)
  {
    assert (s + [c])[..|s|] == s;
  }

  /** The shortest digit string of a number. */
  function Digits(n: nat): (s: Bytes)
    ensures s != [] && AllDigits(s) && Decimal(s) == n
  {
    if n < 10 then
      var s: Bytes := [ZERO + n];
      assert s[..0] == [];
      s
    else
      var s := Digits(n / 10);
      DecimalSnoc(s, ZERO + n % 10);
      s + [ZERO + n % 10]
  }

  function IntText(i: int): Bytes {
    if i < 0 then [MINUS] + Digits(-i) else Digits(i)
  }

  function Pow10(k: nat): nat {
    if k == 0 then 1 else 10 * Pow10(k - 1)
  }

  /** The characters 0 to 9. */
  predicate DigitChars(s: Bytes) {
    forall i :: 0 <= i < |s| ==> 48 <= s[i] <= 57
  }

  /** Every digit times its power of ten. */
  function Positional(s: Bytes): nat
    requires DigitChars(s)
  {
    if s == [] then 0 else (s[0] - 48) * Pow10(|s| - 1) + Positional(s[1..])
  }

  lemma {:induction false} PositionalSnoc(s: Bytes)
    requires DigitChars(s) && s != []
    ensures Positional(s) == Positional(s[..|s| - 1]) * 10 + (s[|s| - 1] - 48)
  {
    var n := |s| - 1;
    if n == 0 {
      assert s[..0] == [] && s[1..] == [] && Pow10(0) == 1;
    } else {
      PositionalSnoc(s[1..]);
      assert s[1..][..n - 1] == s[..n][1..];
      assert s[..n][0] == s[0] && Pow10(n) == 10 * Pow10(n - 1);
      Rearrange(s[0] - 48, Pow10(n - 1), Positional(s[..n][1..]), s[n] - 48);
    }
  }

  lemma Rearrange(d: int, p: int, r: int, l: int)
    ensures d * (10 * p) + (r * 10 + l) == (d * p + r) * 10 + l
  {
  }

  /** `Decimal` is the number in positional notation. */
  lemma {:induction false} PositionalIs(s: Bytes)
    ensures DigitChars(s) <==> AllDigits(s)
    ensures DigitChars(s) ==> Positional(s) == Decimal(s)
  {
    if DigitChars(s) && s != [] {
      PositionalIs(s[..|s| - 1]);
      PositionalSnoc(s);
    }
  }

  /** A number below 10^k has at most k digits. */
  lemma {:induction false} DigitsLength(n: nat, k: nat)
    requires n < Pow10(k) && k > 0
    ensures |Digits(n)| <= k
  {
    if n >= 10 {
      DigitsLength(n / 10, k - 1);
    }
  }

  // ----- Writing --------------------------------------------------------------------

  /** `uintToString(value, current)`: NUL-terminated, growing downwards. */
  method UIntToString(value: int, buffer: array<Byte>, current: nat) returns (start: nat)
    requires 0 <= value && |Digits(value)| < current <= buffer.Length
    modifies buffer
    ensures start + |Digits(value)| + 1 == current
    ensures buffer[start..current] == Digits(value) + [0]
  {
    hide *;
    LeftSteps(value, []);
    start := PutEnd(buffer, current);
    var v := value;
    // the body of the do-while loop runs once before its test
    start := PutByte(LastDigit(v), buffer, start, current, []);
    ghost var done: Bytes := [LastDigit(v)];
    v := v / 10;
    while v != 0
      invariant 0 <= v && Left(v, done) == Digits(value) && done != []
      invariant Written(buffer, start, current, done) && |done| + start + 1 == current
    {
      LeftSteps(v, done);
      start := PutByte(LastDigit(v), buffer, start, current, done);
      done := [LastDigit(v)] + done;
      v := v / 10;
    }
    LeftDone(done);
    WrittenIs(buffer, start, current, done);
  }

  /** The text `done` and its NUL lie in the buffer between `start` and `current`. */
  ghost predicate Written(buffer: array<Byte>, start: nat, current: nat, done: Bytes)
    reads buffer
  {
    start <= current <= buffer.Length && buffer[start..current] == done + [0]
  }

  lemma WrittenIs(buffer: array<Byte>, start: nat, current: nat, done: Bytes)
    ensures Written(buffer, start, current, done) <==>
            start <= current <= buffer.Length && buffer[start..current] == done + [0]
  {
  }

  /** `*--current = 0` */
  method PutEnd(buffer: array<Byte>, current: nat) returns (start: nat)
    requires 0 < current <= buffer.Length
    modifies buffer
    ensures start == current - 1 && Written(buffer, start, current, [])
  {
    start := current - 1;
    buffer[start] := 0;
  }

  /** `*--current = c` */
  method PutByte(c: Byte, buffer: array<Byte>, s: nat, current: nat, ghost done: Bytes) returns (start: nat)
    requires 0 < s && Written(buffer, s, current, done)
    modifies buffer
    ensures start == s - 1 && Written(buffer, start, current, [c] + done)
  {
    start := s - 1;
    buffer[start] := c;
    SliceGrows(buffer, start, current);
    assert [c] + done + [0] == [c] + (done + [0]);
  }

  lemma LeftDone(done: Bytes)
    ensures done != [] ==> Left(0, done) == done
  {
  }

  lemma SliceGrows(buffer: array<Byte>, start: nat, current: nat)
    requires start < current <= buffer.Length
    ensures buffer[start..current] == [buffer[start]] + buffer[start + 1..current]
  {
  }

  /** `static_cast<char>(value % 10U + '0')` */
  function LastDigit(v: int): Byte
    requires 0 <= v
  {
    v % 10 + ZERO
  }

  /** The digits of `v` followed by the digits already written. */
  ghost function Left(v: int, done: Bytes): Bytes
    requires 0 <= v
  {
    if v == 0 && done != [] then done else Digits(v) + done
  }

  lemma LeftSteps(v: int, done: Bytes)
    requires 0 <= v && (v == 0 ==> done == [])
    ensures Left(v, done) == Left(v / 10, [LastDigit(v)] + done)
    ensures v != 0 ==> |Left(v, done)| >= |done| + 1
    ensures done == [] ==> Left(v, done) == Digits(v) && |Digits(v)| >= 1
    ensures [LastDigit(v)] + [] == [LastDigit(v)]
    ensures v > 0 ==> v / 10 < v
  {
    hide *;
    var w: nat, c := v / 10, LastDigit(v);
    DigitsStep(v);
    LeftIs(v, done);
    LeftIs(w, [c] + done);
    Assoc(Digits(w), c, done);
  }

  lemma LeftIs(v: nat, done: Bytes)
    ensures Left(v, done) == if v == 0 && done != [] then done else Digits(v) + done
  {
    hide Digits;
  }

  lemma Assoc(a: Bytes, c: Byte, b: Bytes)
    ensures a + [c] + b == a + ([c] + b) && |[c] + b| == |b| + 1
  {
  }

  lemma DigitsStep(v: nat)
    ensures v >= 10 ==> v / 10 > 0 && Digits(v) == Digits(v / 10) + [LastDigit(v)]
    ensures v < 10 ==> v / 10 == 0 && Digits(v) == [LastDigit(v)]
  {
  }

  /** The C string that starts at `start` in `buffer`. */
  method CString(buffer: array<Byte>, start: nat, ghost text: Bytes) returns (s: Bytes)
    requires start + |text| < buffer.Length && buffer[start..start + |text| + 1] == text + [0]
    requires 0 !in text
    ensures s == text
  {
    var i := start;
    ghost var all := text + [0];
    assert forall k {:trigger all[k]} :: 0 <= k <= |text| ==> buffer[start + k] == all[k] by {
      assert forall k :: 0 <= k <= |text| ==> buffer[start..start + |text| + 1][k] == all[k];
    }
    while buffer[i] != 0
      invariant start <= i <= start + |text|
      decreases start + |text| - i
    {
      assert buffer[i] == all[i - start];
      i := i + 1;
    }
    assert buffer[i] == all[i - start];
    assert i == start + |text|;
    s := buffer[start..i];
    assert s == buffer[start..start + |text| + 1][..|text|];
  }

  /** `valueToString(LargestInt)`; the buffer has `3 * sizeof(LargestUInt) + 1`
      bytes and is never left. */
  method ValueToStringInt(value: int) returns (s: Bytes)
    requires MIN_LARGEST_INT <= value <= MAX_LARGEST_INT
    ensures s == IntText(value)
  {
    hide *;
    Ranges();
    var buffer := new Byte[25](_ => 0);
    // the source treats the smallest integer apart, because negating it overflows
    var magnitude := if value < 0 then -value else value;
    MagnitudeFits(magnitude);
    IntTextIs(value);
    var current := UIntToString(magnitude, buffer, 25);
    if value < 0 {
      WrittenIs(buffer, current, 25, Digits(magnitude));
      current := PutByte(MINUS, buffer, current, 25, Digits(magnitude));
      WrittenIs(buffer, current, 25, IntText(value));
    }
    s := CString(buffer, current, IntText(value));
  }

  lemma MagnitudeFits(n: nat)
    requires n <= MAX_LARGEST_UINT
    ensures |Digits(n)| <= 20
  {
    hide Digits, Pow10;
    Pow10Bound();
    DigitsLength(n, 20);
  }

  lemma Ranges()
    ensures 0 < MAX_LARGEST_INT < -MIN_LARGEST_INT < MAX_LARGEST_UINT && MINUS != 0
  {
  }

  lemma IntTextIs(value: int)
    ensures value < 0 ==> IntText(value) == [MINUS] + Digits(-value) && 0 !in Digits(-value)
    ensures value >= 0 ==> IntText(value) == Digits(value) && 0 !in Digits(value)
  {
  }

  method ValueToStringUInt(value: nat) returns (s: Bytes)
    requires value <= MAX_LARGEST_UINT
    ensures s == Digits(value)
  {
    var buffer := new Byte[25](_ => 0);
    Pow10Bound();
    DigitsLength(value, 20);
    var current := UIntToString(value, buffer, 25);
    s := CString(buffer, current, Digits(value));
  }

  lemma Pow10Bound()
    ensures MAX_LARGEST_UINT < Pow10(20)
  {
    assert Pow10(5) == 100000;
    assert Pow10(10) == 100000 * Pow10(5);
    assert Pow10(15) == 100000 * Pow10(10);
    assert Pow10(20) == 100000 * Pow10(15);
  }

  // ----- Reading --------------------------------------------------------------------

  /** The integer path of `decodeNumber` with its value, or the call of `decodeDouble`. */
  datatype Number = Integer(value: Value) | Double

  function MaxMagnitude(negative: bool): nat {
    if negative then MAX_LARGEST_INT + 1 else MAX_LARGEST_UINT
  }

  function DigitPart(text: Bytes): Bytes {
    if text != [] && text[0] == MINUS then text[1..] else text
  }

  function IntegerValue(negative: bool, magnitude: nat): Value {
    var m: int := magnitude;
    if negative then Int(-m)
    else if magnitude <= MAX_INT then Int(magnitude)
    else UInt(magnitude)
  }

  /** What a number token means: an integer exactly when it is an optional minus
      followed by digits and fits into the signed or unsigned 64-bit range. */
  function NumberOf(text: Bytes): Number {
    var negative := text != [] && text[0] == MINUS;
    var ds := DigitPart(text);
    if AllDigits(ds) && Decimal(ds) <= MaxMagnitude(negative)
    then Integer(IntegerValue(negative, Decimal(ds)))
    else Double
  }

  /** Appending digits never makes a number smaller. */
  lemma {:induction false} DecimalGrows(a: Bytes, b: Bytes)
    requires AllDigits(a + b)
    ensures AllDigits(a) && Decimal(a + b) >= Decimal(a)
    ensures b != [] ==> Decimal(a + b) >= Decimal(a) * 10
  {
    assert forall i :: 0 <= i < |a| ==> a[i] == (a + b)[i];
    if b == [] {
      assert a + b == a;
    } else {
      var n := |b| - 1;
      assert (a + b)[..|a| + n] == a + b[..n];
      DecimalGrows(a, b[..n]);
    }
  }

  /** `value` is the number of the digits `doc[first..current]`. */
  ghost predicate ReadSoFar(doc: Bytes, first: nat, current: nat, value: int) {
    first <= current <= |doc| && AllDigits(doc[first..current]) && value == Decimal(doc[first..current])
  }

  /** One turn of the digit loop: what the digit before `current` does to the
      number so far. */
  lemma OneDigit(doc: Bytes, first: nat, current: nat, value: int)
    requires first < current <= |doc| && ReadSoFar(doc, first, current - 1, value) && 48 <= doc[current - 1] <= 57
    ensures ReadSoFar(doc, first, current, value * 10 + (doc[current - 1] - 48))
  {
    hide AllDigits, Decimal;
    assert doc[first..current] == doc[first..current - 1] + [doc[current - 1]];
    DecimalSnoc(doc[first..current - 1], doc[current - 1]);
  }

  /** What the digits so far say about the whole number. */
  lemma MoreDigits(doc: Bytes, first: nat, current: nat, end: nat, value: int)
    requires current <= end <= |doc| && ReadSoFar(doc, first, current, value) && AllDigits(doc[first..end])
    ensures Decimal(doc[first..end]) >= value && (current != end ==> Decimal(doc[first..end]) >= value * 10)
  {
    hide AllDigits, Decimal;
    assert doc[first..end] == doc[first..current] + doc[current..end];
    DecimalGrows(doc[first..current], doc[current..end]);
  }

  /** The digits of the token that starts at `start` begin here. */
  function FirstDigit(doc: Bytes, start: nat): nat
    requires start < |doc|
  {
    if doc[start] == MINUS then start + 1 else start
  }

  lemma FirstIs(doc: Bytes, start: nat)
    requires start < |doc|
    ensures var first := FirstDigit(doc, start);
            first == (if doc[start] == MINUS then start + 1 else start) && ReadSoFar(doc, first, first, 0)
  {
  }

  /** `Reader::decodeNumber` on the token `doc[start..end]`.  The arithmetic stays
      inside 64 bits, and the guards find exactly the numbers that do not fit. */
  method DecodeNumber(doc: Bytes, start: nat, end: nat) returns (r: Number)
    requires start < end <= |doc|
    ensures r == NumberOf(doc[start..end])
  {
    hide *;
    FirstIs(doc, start);
    var current := start;
    var isNegative := doc[current] == MINUS;
    if isNegative {
      current := current + 1;
    }
    ghost var first := FirstDigit(doc, start);
    var maxIntegerValue := MaxMagnitude(isNegative);
    var threshold := maxIntegerValue / 10;
    var value: int := 0;
    MaxIs(isNegative);
    while current < end
      invariant first <= current <= end
      invariant ReadSoFar(doc, first, current, value) && 0 <= value <= maxIntegerValue
    {
      var c := doc[current];
      current := current + 1;
      if c < 48 || c > 57 {
        NoDigit(doc, start, current - 1, end);
        return Double;
      }
      OneDigit(doc, first, current, value);
      var digit := c - 48;
      if value >= threshold {
        if value > threshold || current != end || digit > maxIntegerValue % 10 {
          Exceeds(doc, start, current, end, value);
          return Double;
        }
      }
      assert value * 10 + digit <= maxIntegerValue <= MAX_LARGEST_UINT;
      value := value * 10 + digit;
    }
    if isNegative && value == maxIntegerValue {
      r := Integer(Int(MIN_LARGEST_INT));
    } else if isNegative {
      r := Integer(Int(-value));
    } else if value <= MAX_INT {
      r := Integer(Int(value));
    } else {
      r := Integer(UInt(value));
    }
    IntegerIs(doc, start, end, value);
  }

  lemma NumberIs(doc: Bytes, start: nat, end: nat)
    requires start < end <= |doc|
    ensures var negative := doc[start] == MINUS;
            var ds := doc[FirstDigit(doc, start)..end];
            NumberOf(doc[start..end]) ==
            if AllDigits(ds) && Decimal(ds) <= MaxMagnitude(negative) then Integer(IntegerValue(negative, Decimal(ds)))
            else Double
  {
    hide AllDigits, Decimal, MaxMagnitude, IntegerValue;
    assert DigitPart(doc[start..end]) == doc[FirstDigit(doc, start)..end];
  }

  lemma MaxIs(negative: bool)
    ensures 100 <= MaxMagnitude(negative) <= MAX_LARGEST_UINT
  {
  }

  /** All characters were digits and the number fits. */
  lemma IntegerIs(doc: Bytes, start: nat, end: nat, value: nat)
    requires start < end <= |doc| && ReadSoFar(doc, FirstDigit(doc, start), end, value)
    requires value <= MaxMagnitude(doc[start] == MINUS)
    ensures NumberOf(doc[start..end]) ==
            Integer(if doc[start] == MINUS then Int(-(value as int))
                    else if value <= MAX_INT then Int(value) else UInt(value))
    ensures MaxMagnitude(true) == -MIN_LARGEST_INT
  {
    hide AllDigits, Decimal;
    NumberIs(doc, start, end);
  }

  lemma NoDigit(doc: Bytes, start: nat, i: nat, end: nat)
    requires start < end <= |doc| && FirstDigit(doc, start) <= i < end && (doc[i] < 48 || doc[i] > 57)
    ensures NumberOf(doc[start..end]) == Double
  {
    hide *;
    NumberIs(doc, start, end);
    NotAllDigits(doc, FirstDigit(doc, start), i, end);
  }

  lemma NotAllDigits(doc: Bytes, first: nat, i: nat, end: nat)
    requires first <= i < end <= |doc| && (doc[i] < 48 || doc[i] > 57)
    ensures !AllDigits(doc[first..end])
  {
    assert doc[first..end][i - first] == doc[i];
  }

  /** The guards of the digit loop: the number is too large, whatever follows. */
  lemma Exceeds(doc: Bytes, start: nat, current: nat, end: nat, value: nat)
    requires start < end <= |doc| && FirstDigit(doc, start) < current <= end
    requires ReadSoFar(doc, FirstDigit(doc, start), current - 1, value) && 48 <= doc[current - 1] <= 57
    requires var max := MaxMagnitude(doc[start] == MINUS);
             value >= max / 10 && (value > max / 10 || current != end || doc[current - 1] - 48 > max % 10)
    ensures NumberOf(doc[start..end]) == Double
  {
    hide *;
    var first, max, digit := FirstDigit(doc, start), MaxMagnitude(doc[start] == MINUS), doc[current - 1] - 48;
    MaxIs(doc[start] == MINUS);
    NumberIs(doc, start, end);
    OneDigit(doc, first, current, value);
    if AllDigits(doc[first..end]) {
      MoreDigits(doc, first, current, end, value * 10 + digit);
      TooLarge(max, value, digit, current == end, Decimal(doc[first..end]));
    }
  }

  lemma TooLarge(max: nat, value: nat, digit: nat, last: bool, whole: nat)
    requires max >= 100 && value >= max / 10 && (value > max / 10 || !last || digit > max % 10)
    requires whole >= value * 10 + digit && (!last ==> whole >= (value * 10 + digit) * 10)
    ensures whole > max
  {
  }

  // ----- Round trip -------------------------------------------------------------------

  /** The value an integer comes back as: its kind depends only on its size. */
  function ReadBack(i: int): Value {
    if i < 0 then Int(i) else IntegerValue(false, i)
  }

  /** Reading what `valueToString` wrote gives the integer back, over the whole
      signed and unsigned 64-bit range. */
  lemma IntegerRoundTrip(i: int)
    requires MIN_LARGEST_INT <= i <= MAX_LARGEST_UINT
    ensures NumberOf(IntText(i)) == Integer(ReadBack(i))
  {
    if i < 0 {
      assert DigitPart(IntText(i)) == Digits(-i);
    } else {
      assert Digits(i)[0] != MINUS;
    }
  }
}
