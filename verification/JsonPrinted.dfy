/**
  What `FastWriter` prints, character by character: the exact text of strings, numbers, arrays and
  objects, without the writer's functions.
 */
module JsonPrinted {
  import opened JsonValue
  import opened JsonNumber
  import opened JsonString
  import opened JsonWriter
  import opened JsonText

  // ----- Numbers and keywords ----------------------------------------------------------------

  /** The decimal text of a number, without leading zeros. */
  predicate IsDecimal(text: Bytes, i: int) {
    if i < 0 then text != [] && text[0] == 45 && IsDecimal(text[1..], -i)
    else text != [] && DigitChars(text) && Positional(text) == i && (|text| > 1 ==> text[0] != 48)
  }

  lemma {:induction false} DigitsDecimal(n: nat)
    ensures IsDecimal(Digits(n), n) && (n > 0 ==> Digits(n)[0] != 48)
  {
    PositionalIs(Digits(n));
    if n >= 10 { DigitsDecimal(n / 10); }
  }

  /** Keywords and numbers. */
  lemma ScalarPrinted(f: Format, v: Value)
    ensures v.Null? ==> ValueText(f, v) == [110, 117, 108, 108]
    ensures v.Bool? ==> ValueText(f, v) == if v.b then [116, 114, 117, 101] else [102, 97, 108, 115, 101]
    ensures v.Int? ==> IsDecimal(ValueText(f, v), v.i)
    ensures v.UInt? ==> IsDecimal(ValueText(f, v), v.u)
    ensures v.Str? ==> ValueText(f, v) == Quoted(f.signedChar, v.s)
  {
    hide Digits, Positional, Quoted;
    if v.Int? {
      var d := Digits(if v.i < 0 then -v.i else v.i);
      DigitsDecimal(if v.i < 0 then -v.i else v.i);
      assert ([45] + d)[1..] == d;
    } else if v.UInt? {
      DigitsDecimal(v.u);
    }
  }

  // ----- Strings -----------------------------------------------------------------------------

  /** A string is printed raw exactly when it is empty, or `char` is unsigned and it has no ASCII character. */
  lemma RawIff(signedChar: bool, s: Bytes)
    ensures Quoted(signedChar, s) == (if AnyCharRequiresQuoting(signedChar, s) then [34] + QuoteBody(s) + [34]
                                      else [34] + s + [34])
    ensures !AnyCharRequiresQuoting(signedChar, s) <==>
            s == [] || (!signedChar && forall i :: 0 <= i < |s| ==> s[i] >= 0x80)
  {
    if s != [] && signedChar {
      assert s[0] < 0x80 || s[0] >= 0x80;
    }
  }

  predicate LowerHex(h: Bytes) {
    |h| == 4 && forall i :: 0 <= i < 4 ==> IsLower(h[i])
  }

  predicate IsLower(b: Byte) {
    48 <= b <= 57 || 97 <= b <= 102
  }

  /** The text of one character: a short escape, itself, four hexadecimal digits, or a surrogate pair. */
  ghost predicate Prints(cp: nat, text: Bytes) {
    if cp == 34 then text == [92, 34]
    else if cp == 92 then text == [92, 92]
    else if cp == 8 then text == [92, 98]
    else if cp == 9 then text == [92, 116]
    else if cp == 10 then text == [92, 110]
    else if cp == 12 then text == [92, 102]
    else if cp == 13 then text == [92, 114]
    else if 32 <= cp < 128 then text == [cp]
    else if cp < 0x1_0000 then PrintsUnit(cp, text)
    else |text| == 12 && PrintsUnit(0xD800 + (cp - 0x1_0000) / 1024, text[..6])
                      && PrintsUnit(0xDC00 + (cp - 0x1_0000) % 1024, text[6..])
  }

  /** A backslash, the letter u and four lower-case hexadecimal digits. */
  predicate PrintsUnit(x: nat, text: Bytes) {
    |text| == 6 && text[0] == 92 && text[1] == 117 && LowerHex(text[2..]) && HexNumber(text[2..]) == x
  }

  lemma HexPrinted(x: nat)
    requires x < 0x1_0000
    ensures PrintsUnit(x, UnicodeEscape(x)) && |UnicodeEscape(x)| == 6
  {
    hide *;
    HexSum(x);
    DigitPrinted(x / 4096 % 16);
    DigitPrinted(x / 256 % 16);
    DigitPrinted(x / 16 % 16);
    DigitPrinted(x % 16);
    UnitIs(x);
  }

  lemma UnitIs(x: nat)
    ensures var e := UnicodeEscape(x);
            && |e| == 6 && e[0] == 92 && e[1] == 117
            && e[2..] == [HexDigit(x / 4096 % 16), HexDigit(x / 256 % 16), HexDigit(x / 16 % 16), HexDigit(x % 16)]
            && (PrintsUnit(x, e) <==> LowerHex(e[2..]) && HexNumber(e[2..]) == x)
            && HexNumber(e[2..]) == HexOf(e[2]) * 4096 + HexOf(e[3]) * 256 + HexOf(e[4]) * 16 + HexOf(e[5])
            && (LowerHex(e[2..]) <==> IsLower(e[2]) && IsLower(e[3]) && IsLower(e[4]) && IsLower(e[5]))
  {
    hide HexDigit, HexOf;
    var h := UnicodeEscape(x)[2..];
    assert LowerHex(h) <==> IsLower(h[0]) && IsLower(h[1]) && IsLower(h[2]) && IsLower(h[3]);
  }

  lemma DigitPrinted(d: int)
    requires 0 <= d < 16
    ensures IsLower(HexDigit(d)) && HexOf(HexDigit(d)) == d
  {
  }

  lemma EscapePrinted(cp: nat)
    requires Scalar(cp) && (cp < 0x80 ==> ShortEscape(cp) == 0)
    ensures Prints(cp, EscapeCodepoint(cp))
  {
    hide UnicodeEscape, PrintsUnit;
    if !(0x20 <= cp < 0x80) {
      if cp < 0x1_0000 {
        HexPrinted(cp);
      } else {
        HexPrinted((cp - 0x1_0000) / 1024 + 0xD800);
        HexPrinted((cp - 0x1_0000) % 1024 + 0xDC00);
        var text := EscapeCodepoint(cp);
        assert text[..6] == UnicodeEscape((cp - 0x1_0000) / 1024 + 0xD800);
        assert text[6..] == UnicodeEscape((cp - 0x1_0000) % 1024 + 0xDC00);
      }
    }
  }

  /** Every character up to U+3FFFF is printed so. */
  lemma CharacterPrinted(cp: nat, more: Bytes)
    requires Scalar(cp) && cp <= 0x3FFFF
    ensures var s := CodePointToUtf8(cp) + more;
            s != [] && Prints(cp, QuoteStep(s).0) && QuoteBody(s) == QuoteStep(s).0 + QuoteBody(more)
  {
    hide QuoteStep, QuoteBody, CodePointToUtf8, EscapeCodepoint, Prints;
    StepIs(cp, more);
    TakenPlaned(cp);
    BodyStep(cp, more);
    if cp < 0x80 && ShortEscape(cp) != 0 {
      ShortPrinted(cp);
    } else {
      EscapePrinted(cp);
    }
  }

  lemma ShortPrinted(cp: nat)
    requires cp < 0x80 && ShortEscape(cp) != 0
    ensures Prints(cp, [92, ShortEscape(cp)])
  {
    hide PrintsUnit;
  }

  /** A byte string that starts with a truncated sequence or with a byte that starts none. */
  predicate Broken(s: Bytes) {
    && s != [] && s[0] >= 0x80
    && (|s| < 2 || (|s| < 3 && s[0] >= 0xE0) || (|s| < 4 && s[0] >= 0xF0) || s[0] >= 0xF8)
  }

  /** Broken sequences are printed as U+FFFD. */
  lemma BrokenPrinted(s: Bytes)
    requires Broken(s)
    ensures QuoteBody(s) == [92, 117, 102, 102, 102, 100] + QuoteBody(s[1..])
  {
    hide QuoteBody;
    assert Utf8ToCodepoint(s) == Read(0xFFFD, 1);
    assert UnicodeEscape(0xFFFD) == [92, 117, 102, 102, 102, 100];
    QuoteBodyIs(s);
  }

  lemma QuoteBodyIs(s: Bytes)
    requires s != []
    ensures QuoteBody(s) == QuoteStep(s).0 + QuoteBody(s[QuoteStep(s).1..])
  {
    hide QuoteStep;
  }

  /** The body is the text of one character after the other. */
  ghost predicate Spells(cps: seq<nat>, body: Bytes) {
    if cps == [] then body == []
    else exists k :: 0 <= k <= |body| && Prints(cps[0], body[..k]) && Spells(cps[1..], body[k..])
  }

  lemma {:induction false} BodyPrinted(cps: seq<nat>)
    requires AllScalar(cps) && AllPlaned(cps)
    ensures Spells(cps, QuoteBody(Utf8(cps)))
  {
    hide QuoteBody, QuoteStep, CodePointToUtf8, Prints;
    if cps == [] {
      NothingPrinted();
      NoBody([]);
    } else {
      Utf8Step(cps);
      var cp, more := cps[0], Utf8(cps[1..]);
      BodyPrinted(cps[1..]);
      CharacterPrinted(cp, more);
      var text := QuoteStep(CodePointToUtf8(cp) + more).0;
      var body := QuoteBody(Utf8(cps));
      assert body[..|text|] == text && body[|text|..] == QuoteBody(more);
    }
  }

  /** A string is printed between quotes: itself when nothing requires quoting, else character by character. */
  lemma StringPrinted(signedChar: bool, cps: seq<nat>)
    requires AllScalar(cps) && AllPlaned(cps)
    ensures var q := Quoted(signedChar, Utf8(cps));
            && |q| >= 2 && q[0] == 34 && q[|q| - 1] == 34
            && if Utf8(cps) != [] && !signedChar && (forall i :: 0 <= i < |Utf8(cps)| ==> Utf8(cps)[i] >= 0x80)
               then q[1..|q| - 1] == Utf8(cps)
               else Spells(cps, q[1..|q| - 1])
  {
    var s := Utf8(cps);
    var q := Quoted(signedChar, s);
    RawIff(signedChar, s);
    BodyPrinted(cps);
    hide AnyCharRequiresQuoting, QuoteBody, Utf8, Spells, Quoted;
    if AnyCharRequiresQuoting(signedChar, s) {
      assert q[1..|q| - 1] == QuoteBody(s);
    } else {
      assert q[1..|q| - 1] == s;
      NoBody(s);
    }
  }

  lemma NoBody(s: Bytes)
    ensures s == [] ==> QuoteBody(s) == []
  {
  }

  // ----- Arrays and objects --------------------------------------------------------------------

  /** The texts with commas between them. */
  function Joined(texts: seq<Bytes>): Bytes {
    if texts == [] then [] else if |texts| == 1 then texts[0] else texts[0] + [44] + Joined(texts[1..])
  }

  function ItemTexts(f: Format, xs: seq<Value>, k: nat): seq<Bytes>
    requires k <= |xs|
  {
    seq(|xs| - k, j requires 0 <= j < |xs| - k => ValueText(f, xs[k + j]))
  }

  /** A name between quotes, a colon, with a space for YAML, and the value. */
  function MemberTexts(f: Format, ms: seq<Member>, k: nat): seq<Bytes>
    requires k <= |ms|
  {
    seq(|ms| - k, j requires 0 <= j < |ms| - k =>
      Quoted(f.signedChar, ms[k + j].key) + (if f.yaml then [58, 32] else [58]) + ValueText(f, ms[k + j].value))
  }

  lemma {:induction false} ItemsJoined(f: Format, xs: seq<Value>, k: nat)
    requires k <= |xs|
    ensures ItemsFrom(f, xs, k) == (if 0 < k < |xs| then [44] else []) + Joined(ItemTexts(f, xs, k))
    decreases |xs| - k
  {
    hide ValueText;
    if k < |xs| {
      ItemsJoined(f, xs, k + 1);
      var texts := ItemTexts(f, xs, k);
      assert texts[1..] == ItemTexts(f, xs, k + 1) && texts[0] == ValueText(f, xs[k]);
      ItemsAre(f, xs, k);
    }
  }

  lemma ItemsAre(f: Format, xs: seq<Value>, k: nat)
    requires k < |xs|
    ensures ItemsFrom(f, xs, k) == (if k > 0 then [44] else []) + ValueText(f, xs[k]) + ItemsFrom(f, xs, k + 1)
  {
    hide ValueText;
  }

  /** Arrays are printed with commas between their items. */
  lemma ArrayPrinted(f: Format, xs: seq<Value>)
    ensures ValueText(f, Arr(xs)) == [91] + Joined(ItemTexts(f, xs, 0)) + [93]
  {
    hide Joined, ItemTexts, ItemsFrom;
    ItemsJoined(f, xs, 0);
  }

  lemma {:induction false} MembersJoined(f: Format, ms: seq<Member>, k: nat)
    requires k <= |ms|
    ensures MembersFrom(f, ms, k) == (if 0 < k < |ms| then [44] else []) + Joined(MemberTexts(f, ms, k))
    decreases |ms| - k
  {
    hide *;
    MembersNone(f, ms);
    if k < |ms| {
      MembersJoined(f, ms, k + 1);
      MemberTextsAre(f, ms, k);
      JoinedIs(MemberTexts(f, ms, k));
      MembersStep(f, ms, k);
      MarksAre(f, k);
      var text := MemberTexts(f, ms, k)[0];
      Joined5(Comma(k), Quoted(f.signedChar, ms[k].key), Colon(f), ValueText(f, ms[k].value),
              MembersFrom(f, ms, k + 1));
      var comma, more := Comma(k), Joined(MemberTexts(f, ms, k + 1));
      assert text + ([44] + more) == text + [44] + more;
      assert text + ([] + more) == text + more;
    }
  }

  lemma MembersNone(f: Format, ms: seq<Member>)
    ensures MembersFrom(f, ms, |ms|) == [] && Joined(MemberTexts(f, ms, |ms|)) == []
  {
  }

  lemma MemberTextsAre(f: Format, ms: seq<Member>, k: nat)
    requires k < |ms|
    ensures var texts := MemberTexts(f, ms, k);
            && |texts| == |ms| - k && texts[1..] == MemberTexts(f, ms, k + 1)
            && texts[0] == Quoted(f.signedChar, ms[k].key) + Colon(f) + ValueText(f, ms[k].value)
  {
    hide Quoted, ValueText;
  }

  lemma JoinedIs(texts: seq<Bytes>)
    ensures texts == [] ==> Joined(texts) == []
    ensures texts != [] ==>
              Joined(texts) == if |texts| == 1 then texts[0] else texts[0] + [44] + Joined(texts[1..])
  {
  }

  lemma MarksAre(f: Format, k: nat)
    ensures Colon(f) == (if f.yaml then [58, 32] else [58]) && Comma(k) == if k > 0 then [44] else []
  {
  }

  lemma Joined5(a: Bytes, b: Bytes, c: Bytes, d: Bytes, e: Bytes)
    ensures a + b + c + d + e == a + ((b + c + d) + e)
  {
    assert a + b + c + d == a + (b + c + d);
  }

  /** Objects are printed with commas between their members. */
  lemma ObjectPrinted(f: Format, ms: seq<Member>)
    ensures ValueText(f, Obj(ms)) == [123] + Joined(MemberTexts(f, ms, 0)) + [125]
  {
    hide Joined, MemberTexts, MembersFrom;
    MembersJoined(f, ms, 0);
  }
}
