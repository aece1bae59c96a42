/**
  Strings as JSON text: `valueToQuotedStringN` writes them, `Reader::readString`
  finds the end of the token and `Reader::decodeString` reads them back.

  Bit operations are written as arithmetic: masking with 2^k - 1 is a remainder,
  shifting is a multiplication or division, and joining disjoint bits is a sum.
 */
module JsonString {
  import opened JsonValue
  import opened DivMod

  const QUOTE: Byte := 34
  const BACKSLASH: Byte := 92
  const LOWER_U: Byte := 117

  // ----- UTF-8 ------------------------------------------------------------------------

  /** A Unicode scalar value (section 3 of RFC 3629). */
  predicate Scalar(cp: nat) {
    cp <= 0x10FFFF && !(0xD800 <= cp <= 0xDFFF)
  }

  predicate AllScalar(cps: seq<nat>) {
    forall i :: 0 <= i < |cps| ==> Scalar(cps[i])
  }

  /** `codePointToUTF8` */
  function CodePointToUtf8(cp: nat): Bytes {
    if cp <= 0x7F then [cp]
    else if cp <= 0x7FF then [0xC0 + cp / 64 % 32, 0x80 + cp % 64]
    else if cp <= 0xFFFF then [0xE0 + cp / 4096 % 16, 0x80 + cp / 64 % 64, 0x80 + cp % 64]
    else if cp <= 0x10FFFF then
      [0xF0 + cp / 262144 % 8, 0x80 + cp / 4096 % 64, 0x80 + cp / 64 % 64, 0x80 + cp % 64]
    else []
  }

  /** The UTF-8 encoding of a sequence of scalar values. */
  function Utf8(cps: seq<nat>): Bytes
    requires AllScalar(cps)
  {
    if cps == [] then [] else CodePointToUtf8(cps[0]) + Utf8(cps[1..])
  }

  const REPLACEMENT_CHARACTER := 0xFFFD

  datatype Read = Read(cp: nat, length: nat)

  /** `utf8ToCodepoint` on the rest `s` of the string, with the number of bytes
      the caller's loop moves on by.  The lead byte of a sequence of four is
      shifted by 24 bits, not by 18. */
  function Utf8ToCodepoint(s: Bytes): (r: Read)
    requires s != []
    ensures 1 <= r.length <= |s|
  {
    var b0: int := s[0];
    if b0 < 0x80 then Read(b0, 1)
    else if b0 < 0xE0 then
      if |s| < 2 then Read(REPLACEMENT_CHARACTER, 1)
      else
        var b1: int := s[1];
        var c := b0 % 32 * 64 + b1 % 64;
        Read(if c < 0x80 then REPLACEMENT_CHARACTER else c, 2)
    else if b0 < 0xF0 then
      if |s| < 3 then Read(REPLACEMENT_CHARACTER, 1)
      else
        var b1: int, b2: int := s[1], s[2];
        var c := b0 % 16 * 4096 + b1 % 64 * 64 + b2 % 64;
        Read(if 0xD800 <= c <= 0xDFFF || c < 0x800 then REPLACEMENT_CHARACTER else c, 3)
    else if b0 < 0xF8 then
      if |s| < 4 then Read(REPLACEMENT_CHARACTER, 1)
      else
        var b1: int, b2: int, b3: int := s[1], s[2], s[3];
        var c := b0 % 8 * 16777216 + b1 % 64 * 4096 + b2 % 64 * 64 + b3 % 64;
        Read(if c < 0x10000 then REPLACEMENT_CHARACTER else c, 4)
    else Read(REPLACEMENT_CHARACTER, 1)
  }

  // ----- Writing ----------------------------------------------------------------------

  function HexDigit(d: int): Byte
    requires 0 <= d < 16
  {
    if d < 10 then 48 + d else 87 + d
  }

  /** `toHex16Bit`: the low 16 bits. */
  function Hex4(x: nat): Bytes {
    [HexDigit(x / 4096 % 16), HexDigit(x / 256 % 16), HexDigit(x / 16 % 16), HexDigit(x % 16)]
  }

  function UnicodeEscape(x: nat): Bytes {
    [BACKSLASH, LOWER_U] + Hex4(x)
  }

  /** What the `default` case of the writer emits for a code point. */
  function EscapeCodepoint(cp: nat): Bytes {
    if 0x20 <= cp < 0x80 then [cp]
    else if cp < 0x10000 then UnicodeEscape(cp)
    else UnicodeEscape((cp - 0x10000) / 1024 + 0xD800) + UnicodeEscape((cp - 0x10000) % 1024 + 0xDC00)
  }

  /** The two-character escape of a byte, or 0. */
  function ShortEscape(b: Byte): Byte {
    if b == QUOTE then QUOTE
    else if b == BACKSLASH then BACKSLASH
    else if b == 8 then 98
    else if b == 12 then 102
    else if b == 10 then 110
    else if b == 13 then 114
    else if b == 9 then 116
    else 0
  }

  /** The writer's loop body: output and bytes used. */
  function QuoteStep(s: Bytes): (r: (Bytes, nat))
    requires s != []
    ensures 1 <= r.1 <= |s|
  {
    if ShortEscape(s[0]) != 0 then ([BACKSLASH, ShortEscape(s[0])], 1)
    else
      var r := Utf8ToCodepoint(s);
      (EscapeCodepoint(r.cp), r.length)
  }

  function QuoteBody(s: Bytes): Bytes {
    if s == [] then []
    else QuoteStep(s).0 + QuoteBody(s[QuoteStep(s).1..])
  }

  /** `isAnyCharRequiredQuoting`.  `*cur < ' '` also holds for bytes from 0x80 on
      where `char` is signed. */
  predicate AnyCharRequiresQuoting(signedChar: bool, s: Bytes) {
    exists i ::
      0 <= i < |s|
      && (s[i] == BACKSLASH || s[i] == QUOTE || s[i] < 0x20 || (signedChar && s[i] >= 0x80) || s[i] < 0x80)
  }

  function Quoted(signedChar: bool, s: Bytes): Bytes {
    if !AnyCharRequiresQuoting(signedChar, s) then [QUOTE] + s + [QUOTE]
    else [QUOTE] + QuoteBody(s) + [QUOTE]
  }

  /** `valueToQuotedStringN`.  Its first branch prints `value` as a C string; all
      its bytes are at least 0x80 then, so it ends where the string ends. */
  method ValueToQuotedStringN(signedChar: bool, value: Bytes) returns (result: Bytes)
    ensures result == Quoted(signedChar, value)
  {
    var needed := RequiresQuoting(signedChar, value);
    if !needed {
      return [QUOTE] + value + [QUOTE];
    }
    assert Quoted(signedChar, value) == [QUOTE] + QuoteBody(value) + [QUOTE];
    hide *;
    result := [QUOTE];
    var c := 0;
    NothingQuoted(value);
    while c != |value|
      invariant 0 <= c <= |value| && QuotedSoFar(value, c, result)
      decreases |value| - c
    {
      QuoteMore(value, c, result);
      var short := ShortEscape(value[c]);
      if short != 0 {
        result := result + [BACKSLASH, short];
        c := c + 1;
      } else {
        var r := Utf8ToCodepoint(value[c..]);
        result := result + EscapeCodepoint(r.cp);
        c := c + r.length;
      }
    }
    AllQuoted(value, result);
    result := result + [QUOTE];
  }

  /** `result` is the opening quote and what the loop prints for the first `c` bytes. */
  ghost predicate QuotedSoFar(value: Bytes, c: nat, result: Bytes) {
    c <= |value| && result + QuoteBody(value[c..]) == [QUOTE] + QuoteBody(value)
  }

  lemma NothingQuoted(value: Bytes)
    ensures QuotedSoFar(value, 0, [QUOTE])
  {
    hide QuoteBody;
    assert value[0..] == value;
  }

  lemma AllQuoted(value: Bytes, result: Bytes)
    requires QuotedSoFar(value, |value|, result)
    ensures result == [QUOTE] + QuoteBody(value)
  {
    assert value[|value|..] == [] && QuoteBody([]) == [];
    hide QuoteBody;
  }

  /** One turn of the writer's loop. */
  lemma QuoteMore(value: Bytes, c: nat, result: Bytes)
    requires c < |value| && QuotedSoFar(value, c, result)
    ensures ShortEscape(value[c]) != 0 ==> QuotedSoFar(value, c + 1, result + [BACKSLASH, ShortEscape(value[c])])
    ensures ShortEscape(value[c]) == 0 ==>
              var r := Utf8ToCodepoint(value[c..]); QuotedSoFar(value, c + r.length, result + EscapeCodepoint(r.cp))
  {
    hide EscapeCodepoint, Utf8ToCodepoint, ShortEscape;
    var rest := value[c..];
    assert rest[0] == value[c];
    var step := QuoteStep(rest);
    assert QuoteBody(rest) == step.0 + QuoteBody(rest[step.1..]);
    assert rest[step.1..] == value[c + step.1..];
    hide QuoteBody;
    Regroup3(result, step.0, QuoteBody(value[c + step.1..]));
  }

  lemma Regroup3(a: Bytes, b: Bytes, c: Bytes)
    ensures a + (b + c) == a + b + c
  {
  }

  method RequiresQuoting(signedChar: bool, s: Bytes) returns (r: bool)
    ensures r == AnyCharRequiresQuoting(signedChar, s)
  {
    for i := 0 to |s|
      invariant forall k :: 0 <= k < i ==>
                !(s[k] == BACKSLASH || s[k] == QUOTE || s[k] < 0x20 || (signedChar && s[k] >= 0x80) || s[k] < 0x80)
    {
      if s[i] == BACKSLASH || s[i] == QUOTE || s[i] < 0x20 || (signedChar && s[i] >= 0x80) || s[i] < 0x80 {
        return true;
      }
    }
    r := false;
  }

  // ----- Finding the end of the token ------------------------------------------------

  /** `Reader::readString` on the rest of the document after the opening quote:
      success and bytes used. */
  function ScanString(d: Bytes): (r: (bool, nat))
    ensures r.1 <= |d|
  {
    if d == [] then (false, 0)
    else if d[0] == BACKSLASH then
      if |d| == 1 then (false, 1) else (var r := ScanString(d[2..]); (r.0, r.1 + 2))
    else if d[0] == QUOTE then (true, 1)
    else var r := ScanString(d[1..]); (r.0, r.1 + 1)
  }

  // ----- Reading ----------------------------------------------------------------------

  /** The errors of `decodeString` and its helpers. */
  datatype Decoded =
    | Text(text: Bytes)
    | EmptyEscape | BadEscape | FourDigitsExpected | HexExpected | SixMoreExpected | SecondHalfExpected

  function Then(prefix: Bytes, rest: Decoded): Decoded {
    if rest.Text? then Text(prefix + rest.text) else rest
  }

  /** The value of a hexadecimal digit, or 16. */
  function HexValue(b: Byte): nat {
    if 48 <= b <= 57 then b - 48
    else if 97 <= b <= 102 then b - 87
    else if 65 <= b <= 70 then b - 55
    else 16
  }

  datatype Unicode = CodePoint(cp: nat, length: nat) | NoCodePoint(error: Decoded)

  /** `decodeUnicodeEscapeSequence`: four hexadecimal digits. */
  function EscapeSequence(b: Bytes): (u: Unicode)
    ensures u.CodePoint? ==> u.length == 4 <= |b| && u.cp < 0x10000
    ensures u.NoCodePoint? ==> !u.error.Text?
  {
    if |b| < 4 then NoCodePoint(FourDigitsExpected)
    else if HexValue(b[0]) == 16 || HexValue(b[1]) == 16 || HexValue(b[2]) == 16 || HexValue(b[3]) == 16 then
      NoCodePoint(HexExpected)
    else CodePoint(HexValue(b[0]) * 4096 + HexValue(b[1]) * 256 + HexValue(b[2]) * 16 + HexValue(b[3]), 4)
  }

  /** `decodeUnicodeCodePoint`: one escape, or a surrogate pair of two. */
  function UnicodeCodePoint(b: Bytes): (u: Unicode)
    ensures u.CodePoint? ==> u.length <= |b|
    ensures u.NoCodePoint? ==> !u.error.Text?
  {
    var first := EscapeSequence(b);
    if first.NoCodePoint? || !(0xD800 <= first.cp <= 0xDBFF) then first
    else if |b| < 10 then NoCodePoint(SixMoreExpected)
    else if b[4] != BACKSLASH || b[5] != LOWER_U then NoCodePoint(SecondHalfExpected)
    else
      var second := EscapeSequence(b[6..]);
      if second.NoCodePoint? then second
      else CodePoint(0x10000 + first.cp % 1024 * 1024 + second.cp % 1024, 10)
  }

  /** The character a two-character escape stands for, or 0. */
  function Unescape(b: Byte): Byte {
    if b == QUOTE || b == 47 || b == BACKSLASH then b
    else if b == 98 then 8
    else if b == 102 then 12
    else if b == 110 then 10
    else if b == 114 then 13
    else if b == 116 then 9
    else 0
  }

  /** `Reader::decodeString` on the bytes between the quotes. */
  function DecodeBody(b: Bytes): Decoded {
    if b == [] || b[0] == QUOTE then Text([])
    else if b[0] != BACKSLASH then Then([b[0]], DecodeBody(b[1..]))
    else if |b| == 1 then EmptyEscape
    else if b[1] == LOWER_U then
      var u := UnicodeCodePoint(b[2..]);
      if u.NoCodePoint? then u.error else Then(CodePointToUtf8(u.cp), DecodeBody(b[2 + u.length..]))
    else if Unescape(b[1]) != 0 then Then([Unescape(b[1])], DecodeBody(b[2..]))
    else BadEscape
  }

  /** `Reader::decodeString(token, decoded)` for the token `doc[start..end]`. */
  method DecodeString(doc: Bytes, start: nat, end: nat) returns (r: Decoded)
    requires start + 2 <= end <= |doc|
    ensures r == DecodeBody(doc[start + 1..end - 1])
  {
    hide Then, DecodeBody, UnicodeCodePoint, CodePointToUtf8, Unescape;
    var current, last := start + 1, end - 1;
    ghost var body := doc[current..last];
    var decoded: Bytes := [];
    ThenEmpty(DecodeBody(body));
    while current != last
      invariant start + 1 <= current <= last
      invariant Then(decoded, DecodeBody(doc[current..last])) == DecodeBody(body)
      decreases last - current
    {
      ghost var rest := doc[current..last];
      DecodeUnfold(decoded, doc, current, last);
      var c := doc[current];
      current := current + 1;
      if c == QUOTE {
        return Text(decoded);
      } else if c == BACKSLASH {
        if current == last {
          return EmptyEscape;
        }
        var escape := doc[current];
        current := current + 1;
        if escape == LOWER_U {
          var u := UnicodeCodePoint(doc[current..last]);
          if u.NoCodePoint? {
            return u.error;
          }
          decoded := decoded + CodePointToUtf8(u.cp);
          current := current + u.length;
        } else if Unescape(escape) != 0 {
          decoded := decoded + [Unescape(escape)];
        } else {
          return BadEscape;
        }
      } else {
        decoded := decoded + [c];
      }
    }
    DecodeEnd(decoded, doc, last);
    r := Text(decoded);
  }

  lemma ThenEmpty(d: Decoded)
    ensures Then([], d) == d
  {
  }

  lemma ThenThen(a: Bytes, b: Bytes, d: Decoded)
    ensures Then(a, Then(b, d)) == Then(a + b, d)
  {
  }

  lemma DecodeEnd(decoded: Bytes, doc: Bytes, last: nat)
    requires last <= |doc|
    ensures Then(decoded, DecodeBody(doc[last..last])) == Text(decoded)
  {
  }

  /** One turn of the reader's loop. */
  lemma DecodeUnfold(decoded: Bytes, doc: Bytes, i: nat, last: nat)
    requires i < last <= |doc|
    ensures var d := Then(decoded, DecodeBody(doc[i..last]));
            if doc[i] == QUOTE then d == Text(decoded)
            else if doc[i] != BACKSLASH then d == Then(decoded + [doc[i]], DecodeBody(doc[i + 1..last]))
            else if i + 1 == last then d == EmptyEscape
            else if doc[i + 1] == LOWER_U then
              var u := UnicodeCodePoint(doc[i + 2..last]);
              if u.NoCodePoint? then d == u.error
              else d == Then(decoded + CodePointToUtf8(u.cp), DecodeBody(doc[i + 2 + u.length..last]))
            else if Unescape(doc[i + 1]) != 0 then
              d == Then(decoded + [Unescape(doc[i + 1])], DecodeBody(doc[i + 2..last]))
            else d == BadEscape
  {
    hide Then, UnicodeCodePoint, CodePointToUtf8, Unescape;
    var b := doc[i..last];
    assert b[0] == doc[i] && b[1..] == doc[i + 1..last];
    if doc[i] == QUOTE {
      ThenText(decoded);
    } else if doc[i] != BACKSLASH {
      ThenThen(decoded, [doc[i]], DecodeBody(doc[i + 1..last]));
    } else if i + 1 < last {
      assert b[1] == doc[i + 1] && b[2..] == doc[i + 2..last];
      if doc[i + 1] == LOWER_U {
        var u := UnicodeCodePoint(b[2..]);
        if u.CodePoint? {
          assert b[2 + u.length..] == doc[i + 2 + u.length..last];
          ThenThen(decoded, CodePointToUtf8(u.cp), DecodeBody(doc[i + 2 + u.length..last]));
        } else {
          ThenError(decoded, u.error);
        }
      } else if Unescape(doc[i + 1]) != 0 {
        ThenThen(decoded, [Unescape(doc[i + 1])], DecodeBody(doc[i + 2..last]));
      } else {
        ThenError(decoded, BadEscape);
      }
    } else {
      ThenError(decoded, EmptyEscape);
    }
  }

  lemma ThenText(a: Bytes)
    ensures Then(a, Text([])) == Text(a)
  {
  }

  lemma ThenError(a: Bytes, d: Decoded)
    ensures !d.Text? ==> Then(a, d) == d
  {
  }

  // ----- The printed token ends at the printed closing quote ---------------------------

  /** Whole escapes and bytes that are neither quotes nor backslashes. */
  predicate Safe(p: Bytes) {
    if p == [] then true
    else if p[0] == BACKSLASH then |p| >= 2 && Safe(p[2..])
    else p[0] != QUOTE && Safe(p[1..])
  }

  lemma {:induction false} SafeConcat(p: Bytes, q: Bytes)
    requires Safe(p) && Safe(q)
    ensures Safe(p + q)
  {
    if p == [] {
      assert p + q == q;
    } else {
      var k := if p[0] == BACKSLASH then 2 else 1;
      SafeConcat(p[k..], q);
      SafeMore(p + q, p[k..] + q, k);
    }
  }

  lemma SafeMore(p: Bytes, rest: Bytes, k: nat)
    requires 1 <= k <= |p| && p[k..] == rest && Safe(rest) && p[0] != QUOTE && k == if p[0] == BACKSLASH then 2 else 1
    ensures Safe(p)
  {
  }

  lemma ScanStep(p: Bytes, rest: Bytes, k: nat)
    requires 1 <= k <= |p| && p[0] != QUOTE && k == if p[0] == BACKSLASH then 2 else 1
    ensures ScanString(p + rest) == (ScanString(p[k..] + rest).0, ScanString(p[k..] + rest).1 + k)
  {
    var q := p + rest;
    assert q[0] == p[0];
    assert q[k..] == p[k..] + rest;
  }

  lemma {:induction false} SafeScan(p: Bytes, rest: Bytes)
    requires Safe(p)
    ensures ScanString(p + rest) == (ScanString(rest).0, ScanString(rest).1 + |p|)
  {
    if p == [] {
      assert p + rest == rest;
    } else {
      var k := if p[0] == BACKSLASH then 2 else 1;
      SafeScan(p[k..], rest);
      ScanStep(p, rest, k);
    }
  }

  lemma SafeUnicode(x: nat)
    ensures Safe(UnicodeEscape(x))
  {
    var e := UnicodeEscape(x);
    assert e[2..] == Hex4(x);
    SafeRaw(Hex4(x));
  }

  lemma {:induction false} SafeRaw(s: Bytes)
    requires forall i :: 0 <= i < |s| ==> s[i] != QUOTE && s[i] != BACKSLASH
    ensures Safe(s)
  {
    if s != [] {
      SafeRaw(s[1..]);
    }
  }

  lemma SafeStep(s: Bytes)
    requires s != []
    ensures Safe(QuoteStep(s).0)
  {
    hide EscapeCodepoint;
    if ShortEscape(s[0]) == 0 {
      var cp: int := Utf8ToCodepoint(s).cp;
      assert 0x20 <= cp < 0x80 ==> cp == s[0];
      SafeEscape(cp);
    }
  }

  lemma SafeEscape(cp: nat)
    requires cp != QUOTE && cp != BACKSLASH
    ensures Safe(EscapeCodepoint(cp))
  {
    hide UnicodeEscape;
    if 0x20 <= cp < 0x80 {
      SafeRaw([cp]);
    } else if cp < 0x10000 {
      SafeUnicode(cp);
    } else {
      SafeUnicode((cp - 0x10000) / 1024 + 0xD800);
      SafeUnicode((cp - 0x10000) % 1024 + 0xDC00);
      SafeConcat(UnicodeEscape((cp - 0x10000) / 1024 + 0xD800), UnicodeEscape((cp - 0x10000) % 1024 + 0xDC00));
    }
  }

  lemma {:induction false} SafeBody(s: Bytes)
    ensures Safe(QuoteBody(s))
  {
    hide QuoteStep;
    if s != [] {
      SafeStep(s);
      SafeBody(s[QuoteStep(s).1..]);
      SafeConcat(QuoteStep(s).0, QuoteBody(s[QuoteStep(s).1..]));
    }
  }

  /** For every byte string, whatever follows: after the opening quote the scanner
      stops exactly behind the printed closing quote. */
  lemma TokenEndsAtQuote(signedChar: bool, s: Bytes, rest: Bytes)
    ensures ScanString((Quoted(signedChar, s) + rest)[1..]) == (true, |Quoted(signedChar, s)| - 1)
  {
    var body := if AnyCharRequiresQuoting(signedChar, s) then QuoteBody(s) else s;
    if AnyCharRequiresQuoting(signedChar, s) { SafeBody(s); } else { SafeRaw(s); }
    assert Quoted(signedChar, s) == [QUOTE] + body + [QUOTE];
    assert (Quoted(signedChar, s) + rest)[1..] == body + ([QUOTE] + rest);
    SafeScan(body, [QUOTE] + rest);
  }

  // ----- Round trip ---------------------------------------------------------------------

  lemma HexRoundTrip(d: int)
    requires 0 <= d < 16
    ensures HexValue(HexDigit(d)) == d
  {
  }

  lemma HexSum(x: nat)
    ensures x / 4096 % 16 * 4096 + x / 256 % 16 * 256 + x / 16 % 16 * 16 + x % 16 == x % 0x10000
  {
    var a := x / 16;
    var b := a / 16;
    var c := b / 16;
    Nested(x, 16, 16);
    Nested(x, 256, 16);
    Nested(x, 4096, 16);
    Unique(x, 0x10000, c / 16, c % 16 * 4096 + b % 16 * 256 + a % 16 * 16 + x % 16);
  }

  /** Four hexadecimal digits read back as the low 16 bits. */
  lemma EscapeSequenceRoundTrip(x: nat, rest: Bytes)
    ensures EscapeSequence(Hex4(x) + rest) == CodePoint(x % 0x10000, 4)
  {
    HexSum(x);
    hide HexDigit, HexValue;
    HexRoundTrip(x / 4096 % 16);
    HexRoundTrip(x / 256 % 16);
    HexRoundTrip(x / 16 % 16);
    HexRoundTrip(x % 16);
  }

  /** An escape that is not a high surrogate is read alone. */
  lemma SingleEscape(x: nat, rest: Bytes)
    requires !(0xD800 <= x % 0x10000 <= 0xDBFF)
    ensures DecodeBody(UnicodeEscape(x) + rest) == Then(CodePointToUtf8(x % 0x10000), DecodeBody(rest))
  {
    var b := UnicodeEscape(x) + rest;
    assert b[2..] == Hex4(x) + rest;
    EscapeSequenceRoundTrip(x, rest);
    assert b[6..] == rest;
  }

  /** A surrogate pair is read as one code point. */
  lemma PairEscape(hi: nat, lo: nat, rest: Bytes)
    requires 0xD800 <= hi % 0x10000 <= 0xDBFF
    ensures DecodeBody(UnicodeEscape(hi) + UnicodeEscape(lo) + rest) ==
            Then(CodePointToUtf8(0x10000 + hi % 0x10000 % 1024 * 1024 + lo % 0x10000 % 1024), DecodeBody(rest))
  {
    hide *;
    var b := UnicodeEscape(hi) + UnicodeEscape(lo) + rest;
    PairBytes(hi, lo, rest);
    PairRead(b[2..], hi, lo, rest);
    DecodeUnicode(b);
  }

  lemma PairBytes(hi: nat, lo: nat, rest: Bytes)
    ensures var b := UnicodeEscape(hi) + UnicodeEscape(lo) + rest;
            && |b| >= 12 && b[0] == BACKSLASH && b[1] == LOWER_U
            && b[2..] == Hex4(hi) + (UnicodeEscape(lo) + rest) && b[2..][4] == BACKSLASH && b[2..][5] == LOWER_U
            && b[2..][6..] == Hex4(lo) + rest && b[12..] == rest
  {
    hide HexDigit;
  }

  /** The branch of the decoding loop for a Unicode escape. */
  lemma DecodeUnicode(b: Bytes)
    requires |b| >= 2 && b[0] == BACKSLASH && b[1] == LOWER_U && UnicodeCodePoint(b[2..]).CodePoint?
    ensures var u := UnicodeCodePoint(b[2..]);
            DecodeBody(b) == Then(CodePointToUtf8(u.cp), DecodeBody(b[2 + u.length..]))
  {
    hide UnicodeCodePoint, CodePointToUtf8, Then;
  }

  lemma PairRead(b: Bytes, hi: nat, lo: nat, rest: Bytes)
    requires 0xD800 <= hi % 0x10000 <= 0xDBFF
    requires |b| >= 6 && b == Hex4(hi) + (UnicodeEscape(lo) + rest) && b[4] == BACKSLASH && b[5] == LOWER_U
    requires b[6..] == Hex4(lo) + rest
    ensures UnicodeCodePoint(b) == CodePoint(0x10000 + hi % 0x10000 % 1024 * 1024 + lo % 0x10000 % 1024, 10)
  {
    EscapeSequenceRoundTrip(hi, UnicodeEscape(lo) + rest);
    EscapeSequenceRoundTrip(lo, rest);
    hide EscapeSequence, Hex4, UnicodeEscape;
  }

  /** The code point the writer takes a character for. */
  function TakenFor(cp: nat): nat {
    if cp < 0x10000 then cp else cp / 262144 * 16777216 + cp % 262144
  }

  /** The writer sees the encoded character, except that the top bits of one above
      U+3FFFF end up in the wrong place. */
  lemma ReadEncoded(cp: nat, rest: Bytes)
    requires Scalar(cp)
    ensures Utf8ToCodepoint(CodePointToUtf8(cp) + rest) == Read(TakenFor(cp), |CodePointToUtf8(cp)|)
    ensures CodePointToUtf8(cp) != [] && (CodePointToUtf8(cp)[0] < 0x80 <==> cp < 0x80)
    ensures cp < 0x80 ==> CodePointToUtf8(cp) == [cp]
  {
    if 0x80 <= cp <= 0x7FF {
      Encoded2(cp);
    } else if 0x800 <= cp <= 0xFFFF {
      Encoded3(cp);
    } else if 0x10000 <= cp {
      Encoded4(cp);
    }
  }

  /** The payload bits of a sequence of two bytes. */
  lemma Encoded2(cp: nat)
    requires 0x80 <= cp <= 0x7FF
    ensures 0xC0 + cp / 64 % 32 < 0xE0
    ensures (0xC0 + cp / 64 % 32) % 32 * 64 + (0x80 + cp % 64) % 64 == cp
  {
    Unique(0xC0 + cp / 64, 32, 6, cp / 64);
    Unique(0x80 + cp % 64, 64, 2, cp % 64);
  }

  lemma Encoded3(cp: nat)
    requires 0x800 <= cp <= 0xFFFF
    ensures 0xE0 <= 0xE0 + cp / 4096 % 16 < 0xF0
    ensures (0xE0 + cp / 4096 % 16) % 16 * 4096 + (0x80 + cp / 64 % 64) % 64 * 64 + (0x80 + cp % 64) % 64 == cp
  {
    Nested(cp, 64, 64);
    Unique(0xE0 + cp / 4096, 16, 14, cp / 4096);
    Unique(0x80 + cp / 64 % 64, 64, 2, cp / 64 % 64);
    Unique(0x80 + cp % 64, 64, 2, cp % 64);
  }

  lemma Encoded4(cp: nat)
    requires 0x10000 <= cp <= 0x10FFFF
    ensures 0xF0 <= 0xF0 + cp / 262144 % 8 < 0xF8
    ensures (0xF0 + cp / 262144 % 8) % 8 * 16777216 + (0x80 + cp / 4096 % 64) % 64 * 4096 +
            (0x80 + cp / 64 % 64) % 64 * 64 + (0x80 + cp % 64) % 64 == TakenFor(cp) >= 0x10000
  {
    Unique(0xF0 + cp / 262144, 8, 30, cp / 262144);
    Unique(0x80 + cp / 4096 % 64, 64, 2, cp / 4096 % 64);
    Unique(0x80 + cp / 64 % 64, 64, 2, cp / 64 % 64);
    Unique(0x80 + cp % 64, 64, 2, cp % 64);
    LowBits(cp);
  }

  /** The payload bits of the last three bytes. */
  lemma LowBits(cp: nat)
    ensures cp / 4096 % 64 * 4096 + cp / 64 % 64 * 64 + cp % 64 == cp % 262144
  {
    Nested(cp, 64, 64);
    Nested(cp, 4096, 64);
    Unique(cp, 262144, cp / 262144, cp / 4096 % 64 * 4096 + cp / 64 % 64 * 64 + cp % 64);
  }

  lemma ShortEscapeRoundTrip(b: Byte, rest: Bytes)
    requires ShortEscape(b) != 0
    ensures DecodeBody([BACKSLASH, ShortEscape(b)] + rest) == Then([b], DecodeBody(rest))
  {
    assert ([BACKSLASH, ShortEscape(b)] + rest)[2..] == rest;
  }

  lemma PlainRoundTrip(b: Byte, rest: Bytes)
    requires b != QUOTE && b != BACKSLASH
    ensures DecodeBody([b] + rest) == Then([b], DecodeBody(rest))
  {
    assert ([b] + rest)[1..] == rest;
  }

  /** What the loop emits for a character at the front of the string. */
  lemma StepIs(cp: nat, more: Bytes)
    requires Scalar(cp)
    ensures var enc := CodePointToUtf8(cp);
            && enc + more != [] && QuoteStep(enc + more).1 == |enc|
            && QuoteStep(enc + more).0 ==
               if cp < 0x80 && ShortEscape(cp) != 0 then [BACKSLASH, ShortEscape(cp)] else EscapeCodepoint(TakenFor(cp))
  {
    hide Utf8ToCodepoint, CodePointToUtf8, EscapeCodepoint;
    ReadEncoded(cp, more);
    assert (CodePointToUtf8(cp) + more)[0] == CodePointToUtf8(cp)[0];
  }

  /** What the `default` case emits for a code point is read back as it. */
  lemma EscapeRoundTrip(cp: nat, rest: Bytes)
    requires Scalar(cp) && (cp < 0x80 ==> ShortEscape(cp) == 0)
    ensures DecodeBody(EscapeCodepoint(cp) + rest) == Then(CodePointToUtf8(cp), DecodeBody(rest))
  {
    hide DecodeBody, UnicodeEscape, Then;
    if 0x20 <= cp < 0x80 {
      PlainRoundTrip(cp, rest);
    } else if cp < 0x10000 {
      hide CodePointToUtf8;
      SingleEscape(cp, rest);
    } else {
      hide CodePointToUtf8;
      PairSum(cp);
      PairEscape((cp - 0x10000) / 1024 + 0xD800, (cp - 0x10000) % 1024 + 0xDC00, rest);
    }
  }

  /** The output for one character is read back as that character. */
  lemma StepRoundTrip(cp: nat, more: Bytes, rest: Bytes)
    requires Scalar(cp) && cp <= 0x3FFFF
    ensures QuoteStep(CodePointToUtf8(cp) + more).1 == |CodePointToUtf8(cp)|
    ensures DecodeBody(QuoteStep(CodePointToUtf8(cp) + more).0 + rest) == Then(CodePointToUtf8(cp), DecodeBody(rest))
  {
    hide *;
    StepIs(cp, more);
    TakenPlaned(cp);
    ReadEncoded(cp, more);
    if cp < 0x80 && ShortEscape(cp) != 0 {
      ShortEscapeRoundTrip(cp, rest);
    } else {
      EscapeRoundTrip(cp, rest);
    }
  }

  lemma TakenPlaned(cp: nat)
    requires cp <= 0x3FFFF
    ensures TakenFor(cp) == cp
  {
  }

  /** The two halves of a surrogate pair. */
  lemma PairSum(cp: nat)
    requires 0x10000 <= cp <= 0x10FFFF
    ensures var hi, lo := (cp - 0x10000) / 1024 + 0xD800, (cp - 0x10000) % 1024 + 0xDC00;
            && 0xD800 <= hi % 0x10000 <= 0xDBFF
            && 0x10000 + hi % 0x10000 % 1024 * 1024 + lo % 0x10000 % 1024 == cp
  {
    var q, r := (cp - 0x10000) / 1024, (cp - 0x10000) % 1024;
    Unique(q + 0xD800, 1024, 54, q);
    Unique(r + 0xDC00, 1024, 55, r);
  }

  /** The output for a character above U+3FFFF is read back as two other ones. */
  lemma StepLoses(cp: nat, more: Bytes, rest: Bytes) returns (other: nat, low: nat)
    requires Scalar(cp) && cp > 0x3FFFF
    ensures 0x800 <= other < 0x10000 && 0xDC00 <= low <= 0xDFFF
    ensures QuoteStep(CodePointToUtf8(cp) + more).1 == |CodePointToUtf8(cp)|
    ensures DecodeBody(QuoteStep(CodePointToUtf8(cp) + more).0 + rest) ==
            Then(CodePointToUtf8(other), Then(CodePointToUtf8(low), DecodeBody(rest)))
  {
    hide Utf8ToCodepoint, DecodeBody, UnicodeEscape, Then, CodePointToUtf8;
    ReadEncoded(cp, more);
    var taken := TakenFor(cp);
    var hi := (taken - 0x10000) / 1024 + 0xD800;
    low := (taken - 0x10000) % 1024 + 0xDC00;
    other := hi % 0x10000;
    assert 0x800 <= other && !(0xD800 <= other <= 0xDBFF);
    SingleEscape(hi, UnicodeEscape(low) + rest);
    SingleEscape(low, rest);
    assert UnicodeEscape(hi) + UnicodeEscape(low) + rest == UnicodeEscape(hi) + (UnicodeEscape(low) + rest);
  }

  /** No character lies above U+3FFFF. */
  predicate AllPlaned(cps: seq<nat>) {
    forall i :: 0 <= i < |cps| ==> cps[i] <= 0x3FFFF
  }

  /** Reading back what the writer's loop wrote for valid UTF-8 gives the string
      exactly when no character lies above U+3FFFF. */
  lemma {:induction false} BodyRoundTrip(cps: seq<nat>)
    requires AllScalar(cps)
    ensures DecodeBody(QuoteBody(Utf8(cps))) == Text(Utf8(cps)) <==> AllPlaned(cps)
  {
    hide *;
    if cps == [] {
      NothingPrinted();
    } else {
      Utf8Step(cps);
      var cp, tail := cps[0], Utf8(cps[1..]);
      var enc, rest := CodePointToUtf8(cp), QuoteBody(tail);
      BodyRoundTrip(cps[1..]);
      if cp <= 0x3FFFF {
        StepRoundTrip(cp, tail, rest);
        BodyStep(cp, tail);
        ThenCancels(enc, DecodeBody(rest), tail);
      } else {
        var other, low := StepLoses(cp, tail, rest);
        BodyStep(cp, tail);
        FirstByteDiffers(cp, other);
        ThenDiffers(CodePointToUtf8(other), Then(CodePointToUtf8(low), DecodeBody(rest)), enc, tail);
      }
    }
  }

  lemma NothingPrinted()
    ensures Utf8([]) == [] && DecodeBody(QuoteBody([])) == Text([]) && AllPlaned([])
  {
  }

  /** A string is its first character and the rest. */
  lemma Utf8Step(cps: seq<nat>)
    requires cps != [] && AllScalar(cps)
    ensures Scalar(cps[0]) && cps[0] <= 0x10FFFF && AllScalar(cps[1..])
    ensures Utf8(cps) == CodePointToUtf8(cps[0]) + Utf8(cps[1..])
    ensures AllPlaned(cps) <==> cps[0] <= 0x3FFFF && AllPlaned(cps[1..])
  {
    hide CodePointToUtf8, AllPlaned;
    PlanedStep(cps);
  }

  lemma PlanedStep(cps: seq<nat>)
    requires cps != []
    ensures AllPlaned(cps) <==> cps[0] <= 0x3FFFF && AllPlaned(cps[1..])
  {
    assert forall i :: 1 <= i < |cps| ==> cps[i] == cps[1..][i - 1];
  }

  /** The loop prints the first character and then the rest. */
  lemma BodyStep(cp: nat, tail: Bytes)
    requires Scalar(cp)
    ensures var s := CodePointToUtf8(cp) + tail;
            s != [] && QuoteBody(s) == QuoteStep(s).0 + QuoteBody(tail)
  {
    hide QuoteStep, CodePointToUtf8;
    StepIs(cp, tail);
    assert (CodePointToUtf8(cp) + tail)[|CodePointToUtf8(cp)|..] == tail;
  }

  lemma ThenDiffers(a: Bytes, d: Decoded, b: Bytes, c: Bytes)
    requires a != [] && b != [] && a[0] != b[0]
    ensures Then(a, d) != Text(b + c)
  {
    assert d.Text? ==> (a + d.text)[0] == a[0];
    assert (b + c)[0] == b[0];
  }

  lemma ThenCancels(a: Bytes, d: Decoded, b: Bytes)
    ensures Then(a, d) == Text(a + b) <==> d == Text(b)
  {
    if Then(a, d) == Text(a + b) {
      assert (a + d.text)[|a|..] == d.text && (a + b)[|a|..] == b;
    }
  }

  lemma FirstByteDiffers(cp: nat, other: nat)
    requires 0x3FFFF < cp <= 0x10FFFF && 0x800 <= other < 0x10000
    ensures CodePointToUtf8(cp) != [] && CodePointToUtf8(other) != []
    ensures CodePointToUtf8(cp)[0] != CodePointToUtf8(other)[0]
  {
  }

  lemma {:induction false} RawRoundTrip(s: Bytes)
    requires forall i :: 0 <= i < |s| ==> s[i] != QUOTE && s[i] != BACKSLASH
    ensures DecodeBody(s) == Text(s)
  {
    if s != [] {
      RawRoundTrip(s[1..]);
      assert s == [s[0]] + s[1..];
    }
  }

  /** The string law: a valid UTF-8 string, whatever control characters, quotes,
      backslashes or NULs it holds, is read back from its printed token exactly
      when all its characters are at most U+3FFFF, or when it is printed raw. */
  lemma StringRoundTrip(signedChar: bool, cps: seq<nat>)
    requires AllScalar(cps)
    ensures var q := Quoted(signedChar, Utf8(cps));
            |q| >= 2 && (DecodeBody(q[1..|q| - 1]) == Text(Utf8(cps)) <==>
                           AllPlaned(cps) || !AnyCharRequiresQuoting(signedChar, Utf8(cps)))
  {
    var s := Utf8(cps);
    var q := Quoted(signedChar, s);
    if AnyCharRequiresQuoting(signedChar, s) {
      BodyRoundTrip(cps);
      assert q[1..|q| - 1] == QuoteBody(s);
    } else {
      RawRoundTrip(s);
      assert q[1..|q| - 1] == s;
    }
  }

  /** Strings that do not survive: the first character above U+3FFFF where `char` is signed,
      and together with any ASCII character whatever the sign. */
  lemma LostCharacter(signedChar: bool)
    ensures var q := Quoted(true, Utf8([0x40000]));
            |q| >= 2 && DecodeBody(q[1..|q| - 1]) != Text(Utf8([0x40000]))
    ensures var q := Quoted(signedChar, Utf8([0x40000, 65]));
            |q| >= 2 && DecodeBody(q[1..|q| - 1]) != Text(Utf8([0x40000, 65]))
  {
    var one: seq<nat>, two: seq<nat> := [0x40000], [0x40000, 65];
    FirstByteHigh(one);
    LastByte(two);
    assert one[0] == 0x40000 && two[0] == 0x40000;
    hide DecodeBody, Quoted, Utf8;
    StringRoundTrip(true, one);
    StringRoundTrip(signedChar, two);
  }

  /** A multi-byte character requires quoting where `char` is signed. */
  lemma FirstByteHigh(cps: seq<nat>)
    requires cps == [0x40000]
    ensures AnyCharRequiresQuoting(true, Utf8(cps))
  {
    assert cps[1..] == [];
    var s := Utf8(cps);
    assert Utf8(cps[1..]) == [];
    assert s == CodePointToUtf8(cps[0]) + [];
    assert s[0] >= 0x80;
  }

  /** An ASCII character requires quoting in any case. */
  lemma LastByte(cps: seq<nat>)
    requires cps == [0x40000, 65]
    ensures forall signedChar :: AnyCharRequiresQuoting(signedChar, Utf8(cps))
  {
    assert cps[1..] == [65];
    var s := Utf8(cps);
    assert Utf8([65]) == [65];
    assert s[|s| - 1] == 65;
  }
}
