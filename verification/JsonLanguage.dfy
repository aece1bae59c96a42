/**
  The language of `Json::Reader`: a document is parsed exactly when a JSON text begins it, and the
  value is what the text means.
 */
module JsonLanguage {
  import opened Wrappers
  import opened JsonValue
  import opened JsonNumber
  import opened JsonString
  import opened JsonGrammar
  import opened JsonWriter
  import opened JsonRoundTrip
  import opened JsonText

  // ----- Gaps ------------------------------------------------------------------------------

  lemma MatchHead(doc: Bytes, i: nat, a: Bytes, b: Bytes)
    requires Matches(doc, i, a + b)
    ensures Matches(doc, i, a) && Matches(doc, i + |a|, b) && i + |a| <= |doc| && i + |a| + |b| <= |doc|
  {
    MatchSplit(doc, i, a, b);
  }

  lemma BlankIsSpace(b: Byte)
    ensures IsBlank(b) <==> IsSpace(b)
  {
  }

  lemma BlankSkipped(doc: Bytes, i: nat)
    requires i < |doc| && IsSpace(doc[i])
    ensures SkipSpaces(doc, i) == SkipSpaces(doc, i + 1)
    ensures ReadToken(doc, i) == ReadToken(doc, i + 1)
    ensures ReadSkippingComments(doc, i) == ReadSkippingComments(doc, i + 1)
  {
    hide TokenAt;
    assert SkipSpaces(doc, i) == SkipSpaces(doc, i + 1);
    assert ReadToken(doc, i) == ReadToken(doc, i + 1);
  }

  lemma {:induction false} BlanksSkipped(doc: Bytes, i: nat, bs: Bytes)
    requires Matches(doc, i, bs) && AllBlank(bs)
    ensures i + |bs| <= |doc| && SkipSpaces(doc, i) == SkipSpaces(doc, i + |bs|)
    ensures ReadToken(doc, i) == ReadToken(doc, i + |bs|)
    decreases |bs|
  {
    hide SkipSpaces, ReadToken, ReadSkippingComments;
    if bs != [] {
      MatchAt(doc, i, bs, 0);
      BlankSkipped(doc, i);
      assert bs == [bs[0]] + bs[1..];
      MatchSplit(doc, i, [bs[0]], bs[1..]);
      BlanksSkipped(doc, i + 1, bs[1..]);
    }
  }

  lemma {:induction false} BlockEnds(doc: Bytes, i: nat, body: Bytes, k: nat)
    requires k <= |body| && Matches(doc, i, body + [42, 47]) && forall j :: 0 <= j < |body| ==> !StarSlash(body, j)
    ensures i + |body| + 2 <= |doc| && CCommentEnd(doc, i + k) == (true, i + |body| + 2)
    decreases |body| - k
  {
    var all := body + [42, 47];
    MatchAt(doc, i, all, k);
    MatchAt(doc, i, all, k + 1);
    if k < |body| {
      assert !StarSlash(body, k);
      BlockEnds(doc, i, body, k + 1);
    }
  }

  lemma {:induction false} LineEnds(doc: Bytes, i: nat, body: Bytes, eol: Byte, k: nat)
    requires k <= |body| && Matches(doc, i, body + [eol]) && IsFiller(Line(body, eol))
    ensures var j := i + |body| + 1;
            j <= |doc| && LineCommentEnd(doc, i + k) == if eol == 13 && At(doc, j, 10) then j + 1 else j
    decreases |body| - k
  {
    MatchAt(doc, i, body + [eol], k);
    if k < |body| {
      LineEnds(doc, i, body, eol, k + 1);
    }
  }

  lemma SlashHere(doc: Bytes, i: nat)
    requires i < |doc| && doc[i] == 47
    ensures ReadToken(doc, i) ==
            Token(if CommentEnd(doc, i + 1).0 then Comment else ErrorToken, i, CommentEnd(doc, i + 1).1)
  {
    TokenHere(doc, i);
    hide ReadSkippingComments, ReadToken, CommentEnd;
  }

  lemma CommentSkipped(doc: Bytes, i: nat)
    requires i <= |doc|
    ensures var t := ReadToken(doc, i);
            ReadSkippingComments(doc, i) == if t.kind == Comment then ReadSkippingComments(doc, t.end) else t
  {
    hide ReadToken;
  }

  lemma BlockSkipped(doc: Bytes, i: nat, body: Bytes)
    requires IsFiller(Block(body)) && Matches(doc, i, FillerText(Block(body)))
    ensures i + |body| + 4 <= |doc| && ReadToken(doc, i) == Token(Comment, i, i + |body| + 4)
  {
    hide ReadToken, CCommentEnd, LineCommentEnd, Matches;
    MatchHead(doc, i, [47, 42], body + [42, 47]);
    MatchAt(doc, i, [47, 42], 0);
    MatchAt(doc, i, [47, 42], 1);
    BlockEnds(doc, i + 2, body, 0);
    SlashHere(doc, i);
  }

  lemma LineSkipped(doc: Bytes, i: nat, body: Bytes, eol: Byte)
    requires IsFiller(Line(body, eol)) && Matches(doc, i, FillerText(Line(body, eol)))
    ensures var j := i + |body| + 3;
            j <= |doc| && ReadToken(doc, i).kind == Comment
            && ReadToken(doc, i).end == if eol == 13 && At(doc, j, 10) then j + 1 else j
  {
    hide ReadToken, CCommentEnd, LineCommentEnd, Matches;
    MatchHead(doc, i, [47, 47], body + [eol]);
    MatchAt(doc, i, [47, 47], 0);
    MatchAt(doc, i, [47, 47], 1);
    LineEnds(doc, i + 2, body, eol, 0);
    SlashHere(doc, i);
  }

  /** Whatever stands between tokens is passed over. */
  lemma FillerSkipped(doc: Bytes, i: nat, f: Filler)
    requires IsFiller(f) && Matches(doc, i, FillerText(f))
    ensures var j := i + |FillerText(f)|;
            && j <= |doc| && ReadSkippingComments(doc, i) == ReadSkippingComments(doc, j)
            && if f.Blank? then ReadToken(doc, i) == ReadToken(doc, j) else ReadToken(doc, i).kind == Comment
  {
    hide ReadToken, ReadSkippingComments, Matches;
    MatchInside(doc, i, FillerText(f));
    CommentSkipped(doc, i);
    match f
    case Blank(b) =>
      MatchAt(doc, i, [b], 0);
      BlankSkipped(doc, i);
    case Block(body) => BlockSkipped(doc, i, body);
    case Line(body, eol) =>
      LineSkipped(doc, i, body, eol);
      var j := i + |body| + 3;
      if eol == 13 && At(doc, j, 10) { BlankSkipped(doc, j); }
  }

  lemma GapParts(g: Gap)
    requires g != [] && IsGap(g)
    ensures IsFiller(g[0]) && IsGap(g[1..]) && GapText(g) == FillerText(g[0]) + GapText(g[1..])
    ensures HasComment(g) <==> !g[0].Blank? || HasComment(g[1..])
  {
    hide FillerText;
    if k :| 0 <= k < |g| && !g[k].Blank? {
      assert k > 0 ==> g[1..][k - 1] == g[k];
    }
    if k :| 0 <= k < |g[1..]| && !g[1..][k].Blank? {
      assert g[1..][k] == g[k + 1];
    }
  }

  lemma NoGap()
    ensures GapText([]) == [] && !HasComment([]) && IsGap([])
  {
  }

  lemma {:induction false} GapSkipped(doc: Bytes, i: nat, g: Gap)
    requires IsGap(g) && Matches(doc, i, GapText(g))
    ensures var j := i + |GapText(g)|;
            && j <= |doc| && ReadSkippingComments(doc, i) == ReadSkippingComments(doc, j)
            && if HasComment(g) then ReadToken(doc, i).kind == Comment else ReadToken(doc, i) == ReadToken(doc, j)
    decreases |g|
  {
    hide *;
    MatchInside(doc, i, GapText(g));
    NoGap();
    if g != [] {
      GapParts(g);
      MatchHead(doc, i, FillerText(g[0]), GapText(g[1..]));
      FillerSkipped(doc, i, g[0]);
      GapSkipped(doc, i + |FillerText(g[0])|, g[1..]);
    }
  }

  // ----- Numbers ---------------------------------------------------------------------------

  /** Behind the number stands nothing that would continue it. */
  predicate Ends(n: Numeral, doc: Bytes, j: nat) {
    j < |doc| ==> !Continues(n, doc[j])
  }

  lemma DigitRun(doc: Bytes, i: nat, ds: Bytes)
    requires DigitChars(ds) && Matches(doc, i, ds)
    requires i + |ds| < |doc| ==> !IsDigit(doc[i + |ds|])
    ensures i + |ds| <= |doc| && SkipDigits(doc, i) == i + |ds|
  {
    hide Matches, SkipDigits;
    MatchInside(doc, i, ds);
    forall k | i <= k < i + |ds| ensures IsDigit(doc[k]) {
      MatchAt(doc, i, ds, k - i);
    }
    DigitsEnd(doc, i, i + |ds|);
  }

  /** The end of a number from its exponent on. */
  function ExponentEnd(doc: Bytes, b: nat): nat
    requires b <= |doc|
  {
    if At(doc, b, 101) || At(doc, b, 69) then
      SkipDigits(doc, if At(doc, b + 1, 43) || At(doc, b + 1, 45) then b + 2 else b + 1)
    else b
  }

  function FractionEnd(doc: Bytes, a: nat): (b: nat)
    requires a <= |doc|
    ensures b <= |doc|
  {
    if At(doc, a, 46) then SkipDigits(doc, a + 1) else a
  }

  lemma NumberEndIs(doc: Bytes, i: nat)
    requires i <= |doc|
    ensures NumberEnd(doc, i) == ExponentEnd(doc, FractionEnd(doc, SkipDigits(doc, i)))
  {
    hide SkipDigits;
  }

  lemma ExponentEnds(doc: Bytes, b: nat, n: Numeral)
    requires IsNumeral(n) && Matches(doc, b, ExponentText(n)) && Ends(n, doc, b + |ExponentText(n)|)
    ensures b + |ExponentText(n)| <= |doc| && ExponentEnd(doc, b) == b + |ExponentText(n)|
    ensures b < |doc| ==> !IsDigit(doc[b]) && (n.fraction.None? ==> doc[b] != 46)
  {
    hide Matches, SkipDigits, DigitChars;
    MatchInside(doc, b, ExponentText(n));
    if n.exponent.Some? {
      var e := n.exponent.value;
      MatchHead(doc, b, [e.letter], e.sign + e.digits);
      MatchAt(doc, b, [e.letter], 0);
      MatchHead(doc, b + 1, e.sign, e.digits);
      DigitRun(doc, b + 1 + |e.sign|, e.digits);
      if e.sign != [] {
        MatchAt(doc, b + 1, e.sign, 0);
      } else if e.digits != [] {
        MatchAt(doc, b + 1, e.digits, 0);
        FirstDigitIs(e.digits);
      }
    }
  }

  lemma FirstDigitIs(ds: Bytes)
    requires DigitChars(ds) && ds != []
    ensures IsDigit(ds[0])
  {
  }

  lemma FractionEnds(doc: Bytes, a: nat, n: Numeral)
    requires IsNumeral(n) && Matches(doc, a, FractionText(n) + ExponentText(n))
    requires Ends(n, doc, a + |FractionText(n) + ExponentText(n)|)
    ensures a + |FractionText(n) + ExponentText(n)| <= |doc|
    ensures ExponentEnd(doc, FractionEnd(doc, a)) == a + |FractionText(n) + ExponentText(n)|
    ensures a < |doc| ==> !IsDigit(doc[a])
  {
    hide Matches, SkipDigits, DigitChars, ExponentEnd, ExponentText, Ends;
    MatchHead(doc, a, FractionText(n), ExponentText(n));
    var b := a + |FractionText(n)|;
    ExponentEnds(doc, b, n);
    if n.fraction.Some? {
      var ds := n.fraction.value;
      MatchHead(doc, a, [46], ds);
      MatchAt(doc, a, [46], 0);
      DigitRun(doc, a + 1, ds);
    }
  }

  /** The scanner ends exactly behind the number. */
  lemma NumeralEnds(doc: Bytes, i: nat, n: Numeral)
    requires IsNumeral(n) && Matches(doc, i, NumeralText(n)) && Ends(n, doc, i + |NumeralText(n)|)
    ensures i + |NumeralText(n)| <= |doc|
    ensures ReadSkippingComments(doc, i) == ReadToken(doc, i) == Token(Number, i, i + |NumeralText(n)|)
    ensures doc[i..i + |NumeralText(n)|] == NumeralText(n)
  {
    hide *;
    NumeralIs(n);
    MatchIs(doc, i, NumeralText(n));
    var more := FractionText(n) + ExponentText(n);
    MatchHead(doc, i, MinusText(n), n.digits + more);
    var d := i + |MinusText(n)|;
    MatchHead(doc, d, n.digits, more);
    FractionEnds(doc, d + |n.digits|, n);
    LeadingDigits(doc, i, n);
    NumberEndIs(doc, i + 1);
    NumberHere(doc, i);
    NoComment(doc, i);
  }

  /** The digits behind the first character of a number. */
  lemma LeadingDigits(doc: Bytes, i: nat, n: Numeral)
    requires IsNumeral(n) && Matches(doc, i, MinusText(n)) && Matches(doc, i + |MinusText(n)|, n.digits)
    requires var d := i + |MinusText(n)| + |n.digits|; d < |doc| ==> !IsDigit(doc[d])
    ensures i < |doc| && (IsDigit(doc[i]) || doc[i] == MINUS)
    ensures SkipDigits(doc, i + 1) == i + |MinusText(n)| + |n.digits|
  {
    hide *;
    NumeralIs(n);
    if n.minus {
      MatchAt(doc, i, MinusText(n), 0);
      DigitRun(doc, i + 1, n.digits);
    } else {
      assert n.digits == [n.digits[0]] + n.digits[1..];
      MatchHead(doc, i, [n.digits[0]], n.digits[1..]);
      MatchAt(doc, i, n.digits, 0);
      DigitsTail(n.digits);
      DigitRun(doc, i + 1, n.digits[1..]);
    }
  }

  lemma DigitsTail(ds: Bytes)
    requires DigitChars(ds) && ds != []
    ensures IsDigit(ds[0]) && DigitChars(ds[1..])
  {
  }

  lemma NoComment(doc: Bytes, i: nat)
    requires i < |doc| && (IsDigit(doc[i]) || doc[i] == MINUS)
    ensures ReadSkippingComments(doc, i) == ReadToken(doc, i)
  {
    TokenHere(doc, i);
  }

  lemma NumeralIs(n: Numeral)
    ensures NumeralText(n) == MinusText(n) + (n.digits + (FractionText(n) + ExponentText(n)))
    ensures IsNumeral(n) ==> (n.minus || n.digits != []) && DigitChars(n.digits)
    ensures MinusText(n) == if n.minus then [MINUS] else []
  {
    hide DigitChars, FractionText, ExponentText;
  }

  lemma NumeralParts(n: Numeral)
    requires IsNumeral(n)
    ensures DigitPart(NumeralText(n)) == n.digits + (FractionText(n) + ExponentText(n))
    ensures NumeralText(n) != [] && (NumeralText(n)[0] == MINUS <==> n.minus)
  {
    hide FractionText, ExponentText;
    var more := FractionText(n) + ExponentText(n);
    if n.minus {
      assert NumeralText(n)[1..] == n.digits + more;
    } else {
      FirstDigitIs(n.digits);
      assert NumeralText(n) == n.digits + more && NumeralText(n)[0] == n.digits[0];
    }
  }

  lemma FractionSeen(n: Numeral)
    requires IsNumeral(n)
    ensures AllDigits(n.digits + (FractionText(n) + ExponentText(n))) <==> n.fraction.None? && n.exponent.None?
    ensures n.fraction.None? && n.exponent.None? ==> n.digits + (FractionText(n) + ExponentText(n)) == n.digits
  {
    hide IsNumeral;
    var more := FractionText(n) + ExponentText(n);
    if n.fraction.Some? {
      assert (n.digits + more)[|n.digits|] == 46;
    } else if n.exponent.Some? {
      assert (n.digits + more)[|n.digits|] == n.exponent.value.letter;
      LetterIs(n);
    } else {
      assert n.digits + more == n.digits;
      PositionalIs(n.digits);
      NumeralIs(n);
    }
  }

  lemma LetterIs(n: Numeral)
    requires IsNumeral(n) && n.exponent.Some?
    ensures !IsDigit(n.exponent.value.letter)
  {
  }

  /** A numeral is an integer for the decoder exactly when it is one by its meaning. */
  lemma NumeralValue(n: Numeral)
    requires IsNumeral(n)
    ensures NumberOf(NumeralText(n)) ==
            if IntegerMeaning(n).Some? then Number.Integer(IntegerMeaning(n).value) else Number.Double
  {
    hide IsNumeral, NumeralText, DigitPart, AllDigits, Decimal, Positional, DigitChars, FractionText, ExponentText;
    NumeralIs(n);
    NumeralParts(n);
    FractionSeen(n);
    PositionalIs(n.digits);
  }

  lemma NumeralOutcome(dr: DoubleReader, doc: Bytes, i: nat, n: Numeral, slot: Value)
    requires IsNumeral(n) && Matches(doc, i, NumeralText(n)) && Ends(n, doc, i + |NumeralText(n)|)
    requires NumeralMeaning(dr, n).Some?
    ensures var t := ReadSkippingComments(doc, i);
            t.kind == TokenType.Number
            && NumberOutcome(dr, doc, t, slot) == Done(true, NumeralMeaning(dr, n).value, i + |NumeralText(n)|, [])
  {
    hide IsNumeral, NumeralText, Matches, Ends, ReadSkippingComments, ReadToken, NumberOf, IntegerMeaning;
    NumeralEnds(doc, i, n);
    NumeralValue(n);
  }

  // ----- Strings ---------------------------------------------------------------------------

  lemma HexRead(h: Bytes, rest: Bytes)
    requires IsHex(h)
    ensures EscapeSequence(h + rest) == CodePoint(HexNumber(h), 4) && HexNumber(h) < 0x1_0000
    ensures Safe(h)
  {
    var b := h + rest;
    assert b[0] == h[0] && b[1] == h[1] && b[2] == h[2] && b[3] == h[3];
    HexDigitRead(h[0]);
    HexDigitRead(h[1]);
    HexDigitRead(h[2]);
    HexDigitRead(h[3]);
    SafeRaw(h);
  }

  lemma HexDigitRead(b: Byte)
    ensures IsHexDigit(b) <==> HexValue(b) != 16
    ensures IsHexDigit(b) ==> HexValue(b) == HexOf(b) < 16 && b != QUOTE && b != BACKSLASH
  {
  }

  lemma EncodedIs(cp: nat)
    ensures CodePointToUtf8(cp) == Encoded(cp)
  {
  }

  lemma UnitRead(hex: Bytes, rest: Bytes)
    requires IsPiece(Unit(hex))
    ensures DecodeBody(PieceText(Unit(hex)) + rest) == Then(PieceMeaning(Unit(hex)), DecodeBody(rest))
  {
    hide EscapeSequence, IsHexDigit, HexNumber, CodePointToUtf8, Encoded, Then, DecodeBody, Safe;
    var b := PieceText(Unit(hex)) + rest;
    HexRead(hex, rest);
    EncodedIs(HexNumber(hex));
    assert b[2..] == hex + rest && b[6..] == rest;
    DecodeUnicode(b);
  }

  lemma PairParts(high: Bytes, low: Bytes, rest: Bytes)
    requires |high| == 4 && |low| == 4
    ensures var b := PieceText(Pair(high, low)) + rest;
            && |b| >= 12 && b[0] == BACKSLASH && b[1] == LOWER_U
            && b[2..] == high + ([BACKSLASH, LOWER_U] + low + rest) && b[2..][4] == BACKSLASH && b[2..][5] == LOWER_U
            && b[2..][6..] == low + rest && b[12..] == rest
  {
    var tail := [BACKSLASH, LOWER_U] + low + rest;
    var b := PieceText(Pair(high, low)) + rest;
    assert b == [BACKSLASH, LOWER_U] + (high + tail);
    Behind([BACKSLASH, LOWER_U], high + tail);
    Behind(high + [BACKSLASH, LOWER_U], low + rest);
    assert high + tail == high + [BACKSLASH, LOWER_U] + (low + rest);
    Behind(PieceText(Pair(high, low)), rest);
  }

  lemma Behind(a: Bytes, b: Bytes)
    ensures (a + b)[|a|..] == b
  {
  }

  lemma PairValue(b: Bytes, high: Bytes, low: Bytes, more: Bytes, rest: Bytes)
    requires IsPiece(Pair(high, low)) && |b| >= 10 && b == high + more && b[4] == BACKSLASH && b[5] == LOWER_U
    requires b[6..] == low + rest
    ensures UnicodeCodePoint(b) == CodePoint(0x1_0000 + HexNumber(high) % 1024 * 1024 + HexNumber(low) % 1024, 10)
  {
    hide EscapeSequence, IsHex, HexNumber, Safe;
    HexRead(high, more);
    HexRead(low, rest);
  }

  lemma PairDecoded(high: Bytes, low: Bytes, rest: Bytes)
    requires IsPiece(Pair(high, low))
    ensures DecodeBody(PieceText(Pair(high, low)) + rest) == Then(PieceMeaning(Pair(high, low)), DecodeBody(rest))
  {
    hide UnicodeCodePoint, HexNumber, CodePointToUtf8, Encoded, Then, DecodeBody, PieceText;
    var b := PieceText(Pair(high, low)) + rest;
    PairParts(high, low, rest);
    PairValue(b[2..], high, low, [BACKSLASH, LOWER_U] + low + rest, rest);
    EncodedIs(0x1_0000 + HexNumber(high) % 1024 * 1024 + HexNumber(low) % 1024);
    DecodeUnicode(b);
  }

  lemma EscapeDecoded(c: Byte, rest: Bytes)
    requires IsPiece(Escape(c))
    ensures DecodeBody(PieceText(Escape(c)) + rest) == Then(PieceMeaning(Escape(c)), DecodeBody(rest))
  {
    hide Then;
    var b := [BACKSLASH, c] + rest;
    EscapedIs(c);
    assert b[0] == BACKSLASH && b[1] == c && b[2..] == rest;
    hide UnicodeCodePoint, CodePointToUtf8, Unescape, Escaped;
  }

  lemma EscapedIs(c: Byte)
    ensures Escaped(c) == Unescape(c) && Escaped(LOWER_U) == 0
  {
  }

  /** Every piece is read as what it means. */
  lemma PieceDecoded(p: Piece, rest: Bytes)
    requires IsPiece(p)
    ensures DecodeBody(PieceText(p) + rest) == Then(PieceMeaning(p), DecodeBody(rest)) && Safe(PieceText(p))
  {
    hide DecodeBody, Then, PieceMeaning;
    PieceSafe(p);
    match p
    case Raw(b) =>
      PlainRoundTrip(b, rest);
      RawMeaning(b);
    case Escape(c) => EscapeDecoded(c, rest);
    case Unit(hex) => UnitRead(hex, rest);
    case Pair(high, low) => PairDecoded(high, low, rest);
  }

  lemma RawMeaning(b: Byte)
    ensures PieceMeaning(Raw(b)) == [b]
  {
  }

  lemma PieceSafe(p: Piece)
    requires IsPiece(p)
    ensures Safe(PieceText(p))
  {
    hide HexNumber, IsHex;
    match p
    case Raw(b) => SafeRaw([b]);
    case Escape(c) => assert [BACKSLASH, c][2..] == [];
    case Unit(hex) =>
      HexRead(hex, []);
      SafeMore([BACKSLASH, LOWER_U] + hex, hex, 2);
    case Pair(high, low) =>
      HexRead(high, []);
      HexRead(low, []);
      SafeMore([BACKSLASH, LOWER_U] + low, low, 2);
      SafeConcat(high, [BACKSLASH, LOWER_U] + low);
      var all := PieceText(p);
      assert all[2..] == high + ([BACKSLASH, LOWER_U] + low);
  }

  lemma {:induction false} StringDecoded(ps: seq<Piece>)
    requires IsString(ps)
    ensures DecodeBody(StringText(ps)) == Decoded.Text(StringMeaning(ps)) && Safe(StringText(ps))
  {
    hide PieceText, PieceMeaning, IsPiece;
    if ps != [] {
      StringDecoded(ps[1..]);
      PieceDecoded(ps[0], StringText(ps[1..]));
      SafeConcat(PieceText(ps[0]), StringText(ps[1..]));
    }
  }

  /** The token of a string and what it decodes to. */
  lemma StringToken(doc: Bytes, i: nat, ps: seq<Piece>)
    requires IsString(ps) && Matches(doc, i, [34] + (StringText(ps) + [34]))
    ensures var n := |StringText(ps)| + 2;
            && i + n <= |doc| && ReadSkippingComments(doc, i) == Token(TokenType.String, i, i + n)
            && DecodeBody(doc[i + 1..i + n - 1]) == Decoded.Text(StringMeaning(ps))
  {
    hide *;
    var body := StringText(ps);
    StringDecoded(ps);
    MatchHead(doc, i, [34], body + [34]);
    MatchAt(doc, i, [34], 0);
    MatchHead(doc, i + 1, body, [34]);
    MatchIs(doc, i + 1, body);
    MatchAt(doc, i + 1 + |body|, [34], 0);
    QuoteEnds(doc, i + 1, |body|);
    QuotedHere(doc, i, |body| + 1);
  }

  lemma QuotedHere(doc: Bytes, i: nat, n: nat)
    requires i < |doc| && doc[i] == 34 && ScanString(doc[i + 1..]) == (true, n)
    ensures ReadSkippingComments(doc, i) == Token(TokenType.String, i, i + 1 + n)
  {
    StringHere(doc, i, n);
  }

  lemma QuoteEnds(doc: Bytes, i: nat, n: nat)
    requires i + n < |doc| && Safe(doc[i..i + n]) && doc[i + n] == 34
    ensures ScanString(doc[i..]) == (true, n + 1)
  {
    hide Safe;
    SafeScan(doc[i..i + n], doc[i + n..]);
    assert doc[i..i + n] + doc[i + n..] == doc[i..];
  }

  // ----- What a text is read as -------------------------------------------------------------

  /** Blanks, slashes, quotes, commas and closing brackets: no number goes on with these. */
  predicate Delimits(b: Byte) {
    IsBlank(b) || b == 34 || b == 44 || b == 47 || b == 93 || b == 125
  }

  /** A number is followed by nothing that would continue it. */
  predicate Stopped(n: Node, doc: Bytes, j: nat) {
    n.NumberNode? ==> Ends(n.n, doc, j)
  }

  lemma DelimitStops(n: Node, m: Numeral, doc: Bytes, j: nat)
    requires j < |doc| && Delimits(doc[j])
    ensures Stopped(n, doc, j) && Ends(m, doc, j)
  {
  }

  lemma FillerFirst(f: Filler)
    requires IsFiller(f)
    ensures FillerText(f) != [] && Delimits(FillerText(f)[0])
  {
  }

  lemma GapFirst(g: Gap, more: Bytes)
    requires IsGap(g) && (g != [] || (more != [] && Delimits(more[0])))
    ensures GapText(g) + more != [] && Delimits((GapText(g) + more)[0])
  {
    hide *;
    NoGap();
    if g != [] {
      GapParts(g);
      FillerFirst(g[0]);
      assert GapText(g)[0] == FillerText(g[0])[0];
    } else {
      assert [] + more == more;
    }
  }

  /** A value depends only on the token it starts with. */
  lemma ValueFrom(dr: DoubleReader, doc: Bytes, i: nat, j: nat, depth: nat, slot: Value)
    requires i <= |doc| && j <= |doc| && ReadSkippingComments(doc, i) == ReadSkippingComments(doc, j)
    ensures ReadValue(dr, doc, i, depth, slot) == ReadValue(dr, doc, j, depth, slot)
  {
    hide ReadSkippingComments, ReadItems, ReadMembers, ScalarOutcome, SkipSpaces, ReadToken;
  }

  lemma LevelsPositive(n: Node)
    ensures Levels(n) >= 1
  {
  }

  lemma {:induction false} NodeRead(dr: DoubleReader, n: Node, doc: Bytes, i: nat, depth: nat, slot: Value)
    requires IsNode(dr, n) && Matches(doc, i, NodeText(n)) && Stopped(n, doc, i + |NodeText(n)|)
    ensures ReadValue(dr, doc, i, depth, slot) == Expected(Meaning(dr, n), i + |NodeText(n)|, depth + Levels(n) - 1)
    decreases n, 1
  {
    hide *;
    MatchInside(doc, i, NodeText(n));
    LevelsPositive(n);
    ExpectedIs(Meaning(dr, n), i + |NodeText(n)|, depth + Levels(n) - 1);
    NodeIs(dr, n);
    if depth > STACK_LIMIT {
      TooDeep(dr, doc, i, depth, slot);
    } else if n.ArrayNode? {
      ArrayRead(dr, n.items, doc, i, depth, slot);
    } else if n.ObjectNode? {
      MatchHead(doc, i, [123], MembersText(n.members));
      MatchAt(doc, i, [123], 0);
      MarkHere(doc, i, ObjectBegin);
      ObjectUnfold(dr, doc, i, depth, slot);
      ListsNothing();
      MembersRead(dr, n.members, doc, i + 1, depth, [], map[], []);
    } else if n.EmptyArray? {
      EmptyArrayRead(dr, n.blanks, doc, i, depth, slot);
    } else {
      ScalarRead(dr, n, doc, i, depth, slot);
    }
  }

  lemma ListsNothing()
    ensures Lists([], map[])
  {
  }

  /** The functions over texts, unfolded once. */
  lemma NodeIs(dr: DoubleReader, n: Node)
    ensures n.ArrayNode? ==> NodeText(n) == [91] + ItemsText(n.items) && Levels(n) == 1 + ItemsLevels(n.items)
    ensures n.ArrayNode? ==>
            Meaning(dr, n) == Arr(ItemsMeaning(dr, n.items)) && (IsNode(dr, n) <==> IsItems(dr, n.items))
    ensures n.ObjectNode? ==> NodeText(n) == [123] + MembersText(n.members) && Levels(n) == 1 + MembersLevels(n.members)
    ensures n.ObjectNode? ==> Meaning(dr, n) == Obj(Listing(MembersMeaning(dr, n.members, map[])))
    ensures n.ObjectNode? ==> (IsNode(dr, n) <==> IsMembers(dr, n.members, []))
    ensures n.EmptyArray? ==> NodeText(n) == [91] + (n.blanks + [93]) && Meaning(dr, n) == Arr([])
    ensures n.EmptyArray? ==> (IsNode(dr, n) <==> AllBlank(n.blanks))
    ensures n.NullNode? ==> NodeText(n) == NULL_TEXT && Meaning(dr, n) == Null
    ensures n.TrueNode? ==> NodeText(n) == TRUE_TEXT && Meaning(dr, n) == Bool(true)
    ensures n.FalseNode? ==> NodeText(n) == FALSE_TEXT && Meaning(dr, n) == Bool(false)
    ensures n.NullNode? || n.TrueNode? || n.FalseNode? ==> IsNode(dr, n)
    ensures n.NumberNode? ==> NodeText(n) == NumeralText(n.n)
    ensures n.NumberNode? ==> (IsNode(dr, n) <==> IsNumeral(n.n) && NumeralMeaning(dr, n.n).Some?)
    ensures n.NumberNode? && IsNode(dr, n) ==> Meaning(dr, n) == NumeralMeaning(dr, n.n).value
    ensures n.StringNode? ==>
            NodeText(n) == [34] + (StringText(n.ps) + [34]) && Meaning(dr, n) == Str(StringMeaning(n.ps))
    ensures n.StringNode? ==> (IsNode(dr, n) <==> IsString(n.ps))
    ensures !n.ArrayNode? && !n.ObjectNode? ==> Levels(n) == 1
    ensures NULL_TEXT != TRUE_TEXT && NULL_TEXT != FALSE_TEXT && TRUE_TEXT != FALSE_TEXT
  {
    hide NumeralText, NumeralMeaning, IsNumeral, StringText, StringMeaning, IsString, ItemsText, MembersText,
         ItemsMeaning,
         MembersMeaning, Listing, AllBlank, IsItems, IsMembers, ItemsLevels, MembersLevels;
    KeywordParts(NULL_TEXT);
    KeywordParts(TRUE_TEXT);
    KeywordParts(FALSE_TEXT);
  }

  lemma ScalarRead(dr: DoubleReader, n: Node, doc: Bytes, i: nat, depth: nat, slot: Value)
    requires IsNode(dr, n) && Matches(doc, i, NodeText(n)) && Stopped(n, doc, i + |NodeText(n)|) && depth <= STACK_LIMIT
    requires n.NullNode? || n.TrueNode? || n.FalseNode? || n.NumberNode? || n.StringNode?
    ensures ReadValue(dr, doc, i, depth, slot) == Done(true, Meaning(dr, n), i + |NodeText(n)|, [])
  {
    hide *;
    MatchInside(doc, i, NodeText(n));
    NodeIs(dr, n);
    ScalarUnfold(dr, doc, i, depth, slot);
    match n
    case NullNode => KeywordBack(doc, i, NULL_TEXT);
    case TrueNode => KeywordBack(doc, i, TRUE_TEXT);
    case FalseNode => KeywordBack(doc, i, FALSE_TEXT);
    case NumberNode(m) =>
      StoppedIs(n, doc, i + |NodeText(n)|);
      NumeralOutcome(dr, doc, i, m, slot);
    case StringNode(ps) =>
      StringToken(doc, i, ps);
      StringOutcomeIs(doc, ReadSkippingComments(doc, i), slot);
  }

  lemma StoppedIs(n: Node, doc: Bytes, j: nat)
    ensures Stopped(n, doc, j) <==> (n.NumberNode? ==> Ends(n.n, doc, j))
  {
  }

  lemma StringOutcomeIs(doc: Bytes, t: Token, slot: Value)
    requires t.start + 2 <= t.end <= |doc|
    ensures var d := DecodeBody(doc[t.start + 1..t.end - 1]);
            StringOutcome(doc, t, slot) ==
              if d.Text? then Done(true, Str(d.text), t.end, []) else Done(false, slot, t.end, [BadString(d)])
  {
    hide DecodeBody;
  }

  lemma EmptyArrayRead(dr: DoubleReader, blanks: Bytes, doc: Bytes, i: nat, depth: nat, slot: Value)
    requires AllBlank(blanks) && Matches(doc, i, [91] + (blanks + [93])) && depth <= STACK_LIMIT
    ensures ReadValue(dr, doc, i, depth, slot) == Done(true, Arr([]), i + |[91] + (blanks + [93])|, [])
  {
    hide *;
    MatchInside(doc, i, [91] + (blanks + [93]));
    MatchHead(doc, i, [91], blanks + [93]);
    MatchAt(doc, i, [91], 0);
    MarkHere(doc, i, ArrayBegin);
    ArrayUnfold(dr, doc, i, depth, slot);
    MatchHead(doc, i + 1, blanks, [93]);
    BlanksSkipped(doc, i + 1, blanks);
    var j := i + 1 + |blanks|;
    MatchAt(doc, j, [93], 0);
    NoSpace(doc, j);
    AtIs(doc, j, 93);
    MarkHere(doc, j, ArrayEnd);
  }

  /** Items are read alike from the blanks on and behind them. */
  lemma ItemsFromSpace(dr: DoubleReader, doc: Bytes, i: nat, depth: nat, acc: seq<Value>)
    requires i <= |doc|
    ensures var s := SkipSpaces(doc, i);
            && ReadItems(dr, doc, s, depth, acc) == ReadItems(dr, doc, i, depth, acc)
            && ReadSkippingComments(doc, s) == ReadSkippingComments(doc, i)
  {
    hide ReadValue, Recover, TokenAt, AfterItem;
    var s := SkipSpaces(doc, i);
    assert SkipSpaces(doc, s) == s;
    assert ReadToken(doc, s) == ReadToken(doc, i);
    hide ReadToken, SkipSpaces;
    CommentSkipped(doc, s);
    CommentSkipped(doc, i);
    hide ReadSkippingComments;
    ValueFrom(dr, doc, s, i, depth + 1, Null);
  }

  lemma NodeFirst(dr: DoubleReader, n: Node, doc: Bytes, i: nat)
    requires IsNode(dr, n) && Matches(doc, i, NodeText(n))
    ensures i < |doc| && !IsSpace(doc[i]) && doc[i] != 93 && doc[i] != 47
  {
    hide ItemsText, MembersText, StringText, FractionText, ExponentText, IsItems, IsMembers, IsString, AllBlank,
         Matches,
         NumeralMeaning;
    MatchAt(doc, i, NodeText(n), 0);
    if n.NumberNode? && !n.n.minus {
      FirstDigitIs(n.n.digits);
      assert NodeText(n)[0] == n.n.digits[0];
    }
  }

  lemma BracketToken(doc: Bytes, i: nat)
    requires i <= |doc| && At(doc, SkipSpaces(doc, i), 93)
    ensures ReadSkippingComments(doc, SkipSpaces(doc, i)).start == SkipSpaces(doc, i)
  {
    MarkHere(doc, SkipSpaces(doc, i), ArrayEnd);
  }

  lemma ArrayRead(dr: DoubleReader, xs: Items, doc: Bytes, i: nat, depth: nat, slot: Value)
    requires IsItems(dr, xs) && Matches(doc, i, [91] + ItemsText(xs)) && depth <= STACK_LIMIT
    ensures ReadValue(dr, doc, i, depth, slot) ==
            Expected(Arr(ItemsMeaning(dr, xs)), i + |[91] + ItemsText(xs)|, depth + ItemsLevels(xs))
    decreases xs, 1
  {
    hide *;
    MatchInside(doc, i, [91] + ItemsText(xs));
    MatchHead(doc, i, [91], ItemsText(xs));
    MatchAt(doc, i, [91], 0);
    MarkHere(doc, i, ArrayBegin);
    ArrayUnfold(dr, doc, i, depth, slot);
    ItemsFromSpace(dr, doc, i + 1, depth, []);
    ItemsRead(dr, xs, doc, i + 1, depth, []);
    assert [] + ItemsMeaning(dr, xs) == ItemsMeaning(dr, xs);
    NoBracketFirst(dr, xs, doc, i + 1);
  }

  lemma NoBracketFirst(dr: DoubleReader, xs: Items, doc: Bytes, i: nat)
    requires i <= |doc| && IsItems(dr, xs) && Matches(doc, i, ItemsText(xs))
    ensures !At(doc, SkipSpaces(doc, i), 93)
  {
    hide *;
    AtIs(doc, SkipSpaces(doc, i), 93);
    ItemsSpelled(dr, xs);
    MatchHead(doc, i, GapText(xs.before), NodeText(xs.node) + (GapText(xs.after) + ItemsTail(xs)));
    GapSkipped(doc, i, xs.before);
    var j := i + |GapText(xs.before)|;
    MatchHead(doc, j, NodeText(xs.node), GapText(xs.after) + ItemsTail(xs));
    NodeFirst(dr, xs.node, doc, j);
    TokenHere(doc, j);
    if At(doc, SkipSpaces(doc, i), 93) {
      BracketToken(doc, i);
      ItemsFromSpace(dr, doc, i, 0, []);
      assert false;
    }
  }

  function ItemsTail(xs: Items): Bytes {
    match xs
    case LastItem(_, _, _) => [93]
    case NextItem(_, _, _, rest) => [44] + ItemsText(rest)
  }

  lemma ItemsSpelled(dr: DoubleReader, xs: Items)
    ensures ItemsText(xs) == GapText(xs.before) + (NodeText(xs.node) + (GapText(xs.after) + ItemsTail(xs)))
    ensures xs.LastItem? ==> ItemsTail(xs) == [93] && ItemsLevels(xs) == Levels(xs.node)
    ensures xs.LastItem? ==> ItemsMeaning(dr, xs) == [Meaning(dr, xs.node)]
    ensures xs.NextItem? ==> ItemsTail(xs) == [44] + ItemsText(xs.rest)
    ensures xs.NextItem? ==> ItemsMeaning(dr, xs) == [Meaning(dr, xs.node)] + ItemsMeaning(dr, xs.rest)
    ensures xs.NextItem? ==> ItemsLevels(xs) == Max(Levels(xs.node), ItemsLevels(xs.rest))
    ensures IsItems(dr, xs) <==> IsGap(xs.before) && IsNode(dr, xs.node) && IsGap(xs.after) &&
                                 (xs.NextItem? ==> IsItems(dr, xs.rest))
  {
    hide GapText, NodeText, Meaning, Levels, IsGap, IsNode;
  }

  /** A node behind a gap and before a delimiter. */
  lemma SpacedRead(dr: DoubleReader, before: Gap, n: Node, more: Bytes, doc: Bytes, i: nat, depth: nat, slot: Value)
    requires IsGap(before) && IsNode(dr, n) && more != [] && Delimits(more[0])
    requires Matches(doc, i, GapText(before) + (NodeText(n) + more))
    ensures var j := i + |GapText(before)| + |NodeText(n)|;
            && Matches(doc, j, more)
            && ReadValue(dr, doc, i, depth, slot) == Expected(Meaning(dr, n), j, depth + Levels(n) - 1)
    decreases n, 2
  {
    hide *;
    MatchInside(doc, i, GapText(before) + (NodeText(n) + more));
    LevelsPositive(n);
    MatchHead(doc, i, GapText(before), NodeText(n) + more);
    var k := i + |GapText(before)|;
    MatchHead(doc, k, NodeText(n), more);
    var j := k + |NodeText(n)|;
    MatchAt(doc, j, more, 0);
    DelimitStops(n, Numeral(true, [], None, None), doc, j);
    GapSkipped(doc, i, before);
    ValueFrom(dr, doc, i, k, depth, slot);
    NodeRead(dr, n, doc, k, depth, slot);
  }

  /** What follows an item. */
  lemma AfterItemRead(dr: DoubleReader, xs: Items, doc: Bytes, j: nat)
    requires IsItems(dr, xs) && Matches(doc, j, GapText(xs.after) + ItemsTail(xs))
    ensures var k := j + |GapText(xs.after)|;
            && j <= |doc| && k < |doc|
            && ReadSkippingComments(doc, j) == Token(if xs.LastItem? then ArrayEnd else ArraySeparator, k, k + 1)
            && (xs.NextItem? ==> Matches(doc, k + 1, ItemsText(xs.rest)))
  {
    hide *;
    ItemsSpelled(dr, xs);
    MatchHead(doc, j, GapText(xs.after), ItemsTail(xs));
    GapSkipped(doc, j, xs.after);
    var k := j + |GapText(xs.after)|;
    MatchAt(doc, k, ItemsTail(xs), 0);
    if xs.LastItem? {
      MarkHere(doc, k, ArrayEnd);
    } else {
      CommaHere(doc, k);
      MatchHead(doc, k, [44], ItemsText(xs.rest));
    }
  }

  lemma CommaHere(doc: Bytes, i: nat)
    requires i < |doc| && doc[i] == 44
    ensures ReadToken(doc, i) == ReadSkippingComments(doc, i) == Token(ArraySeparator, i, i + 1)
  {
    MarkHere(doc, i, ArraySeparator);
  }

  lemma {:induction false} ItemsRead(dr: DoubleReader, xs: Items, doc: Bytes, i: nat, depth: nat, acc: seq<Value>)
    requires IsItems(dr, xs) && Matches(doc, i, ItemsText(xs))
    ensures ReadItems(dr, doc, i, depth, acc) ==
            Expected(Arr(acc + ItemsMeaning(dr, xs)), i + |ItemsText(xs)|, depth + ItemsLevels(xs))
    decreases xs, 0
  {
    hide *;
    MatchInside(doc, i, ItemsText(xs));
    ItemsSpelled(dr, xs);
    var tail := ItemsTail(xs);
    MarkDelimits();
    assert tail != [] && Delimits(tail[0]);
    GapFirst(xs.after, tail);
    SpacedRead(dr, xs.before, xs.node, GapText(xs.after) + tail, doc, i, depth + 1, Null);
    ItemsUnfold(dr, doc, i, depth, acc);
    var j := i + |GapText(xs.before)| + |NodeText(xs.node)|;
    AfterItemRead(dr, xs, doc, j);
    var k := j + |GapText(xs.after)|;
    ExpectedIs(Meaning(dr, xs.node), j, depth + Levels(xs.node));
    var acc' := acc + [Meaning(dr, xs.node)];
    ExpectedIs(Arr(acc + ItemsMeaning(dr, xs)), i + |ItemsText(xs)|, depth + ItemsLevels(xs));
    if xs.NextItem? {
      JsonRoundTrip.MaxIs(Levels(xs.node), ItemsLevels(xs.rest));
      ItemsRead(dr, xs.rest, doc, k + 1, depth, acc');
      assert acc' + ItemsMeaning(dr, xs.rest) == acc + ItemsMeaning(dr, xs);
      ExpectedIs(Arr(acc + ItemsMeaning(dr, xs)), i + |ItemsText(xs)|, depth + ItemsLevels(xs.rest));
    }
  }

  lemma MarkDelimits()
    ensures Delimits(34) && Delimits(44) && Delimits(93) && Delimits(125) && Delimits(47)
  {
  }

  /** The end of a turn of `readObject`: which token comes next, comments passed over. */
  lemma AfterMemberIs(dr: DoubleReader, doc: Bytes, i: nat, depth: nat, members: seq<Member>, key: Bytes)
    requires i <= |doc|
    ensures var next := ReadSkippingComments(doc, i);
            var r := AfterMember(dr, doc, i, depth, members, key);
            if next.kind == ObjectEnd then r == Done(true, Obj(members), next.end, [])
            else if next.kind == ArraySeparator || ReadToken(doc, i).kind == Comment
            then r == ReadMembers(dr, doc, next.end, depth, members, key)
            else r.Done? && !r.ok
  {
    hide ReadToken, ReadSkippingComments, ReadMembers, Recover;
    CommentSkipped(doc, i);
  }

  lemma MemberOutcomeOf(dr: DoubleReader, doc: Bytes, i: nat, depth: nat, members: seq<Member>, key: Bytes)
    requires i <= |doc|
    ensures var v := ReadValue(dr, doc, i, depth + 1, Lookup(members, key));
            var r := MemberOutcome(dr, doc, i, depth, members, key);
            if v.StackLimit? then r == StackLimit
            else if v.ok then r == AfterMember(dr, doc, v.end, depth, Put(members, key, v.value), key)
            else r.Done? && !r.ok
  {
    hide ReadValue, AfterMember, Put, Lookup, Recover;
  }

  lemma EntryIs(dr: DoubleReader, e: Entry)
    ensures EntryText(e) ==
            GapText(e.before) +
              ([34] + (StringText(e.name) + ([34] + (e.blanks + ([58] + (GapText(e.gap) + NodeText(e.node)))))))
    ensures IsEntry(dr, e) <==>
            IsGap(e.before) && IsString(e.name) && AllBlank(e.blanks) && IsGap(e.gap) && IsNode(dr, e.node)
  {
    hide GapText, StringText, NodeText;
  }

  /** The name of a member and the colon behind it. */
  lemma NameRead(dr: DoubleReader, e: Entry, more: Bytes, doc: Bytes, i: nat)
    requires IsEntry(dr, e) && Matches(doc, i, EntryText(e) + more)
    ensures var b := i + |GapText(e.before)|;
            var c := b + |StringText(e.name)| + 2;
            var d := c + |e.blanks|;
            && d < |doc| && ReadSkippingComments(doc, i) == Token(TokenType.String, b, c)
            && DecodeBody(doc[b + 1..c - 1]) == Decoded.Text(StringMeaning(e.name))
            && ReadToken(doc, c) == Token(MemberSeparator, d, d + 1)
            && Matches(doc, d + 1, GapText(e.gap) + (NodeText(e.node) + more))
            && i + |EntryText(e)| == d + 1 + |GapText(e.gap)| + |NodeText(e.node)|
  {
    hide *;
    EntryIs(dr, e);
    var value := GapText(e.gap) + (NodeText(e.node) + more);
    var quoted := [34] + (StringText(e.name) + [34]);
    EntryGrouped(GapText(e.before), StringText(e.name), e.blanks, GapText(e.gap), NodeText(e.node), more);
    MatchHead(doc, i, GapText(e.before), quoted + (e.blanks + ([58] + value)));
    GapSkipped(doc, i, e.before);
    var b := i + |GapText(e.before)|;
    MatchHead(doc, b, quoted, e.blanks + ([58] + value));
    StringToken(doc, b, e.name);
    ColonRead(doc, b + |quoted|, e.blanks, value);
  }

  lemma ColonRead(doc: Bytes, c: nat, blanks: Bytes, value: Bytes)
    requires AllBlank(blanks) && Matches(doc, c, blanks + ([58] + value))
    ensures var d := c + |blanks|;
            d < |doc| && ReadToken(doc, c) == Token(MemberSeparator, d, d + 1) && Matches(doc, d + 1, value)
  {
    hide *;
    MatchHead(doc, c, blanks, [58] + value);
    BlanksSkipped(doc, c, blanks);
    var d := c + |blanks|;
    MatchHead(doc, d, [58], value);
    MatchAt(doc, d, [58], 0);
    MarkHere(doc, d, MemberSeparator);
  }

  lemma EntryGrouped(a: Bytes, name: Bytes, blanks: Bytes, gap: Bytes, node: Bytes, more: Bytes)
    ensures a + ([34] + (name + ([34] + (blanks + ([58] + (gap + node)))))) + more ==
            a + (([34] + (name + [34])) + (blanks + ([58] + (gap + (node + more)))))
  {
    assert gap + node + more == gap + (node + more);
    assert [58] + (gap + node) + more == [58] + (gap + (node + more));
    assert blanks + ([58] + (gap + node)) + more == blanks + ([58] + (gap + (node + more)));
    var rest := blanks + ([58] + (gap + node));
    assert [34] + (name + ([34] + rest)) == [34] + (name + [34]) + rest;
    assert a + ([34] + (name + [34]) + rest) + more == a + (([34] + (name + [34])) + (rest + more));
  }

  /** One turn of the loop of `readObject` on a member. */
  lemma EntryRead(dr: DoubleReader, e: Entry, more: Bytes, doc: Bytes, i: nat, depth: nat, acc: seq<Member>,
                  name: Bytes)
    requires IsEntry(dr, e) && Matches(doc, i, EntryText(e) + more) && more != [] && Delimits(more[0])
    ensures var j := i + |EntryText(e)|;
            && Matches(doc, j, more) && j <= |doc|
            && ReadMembers(dr, doc, i, depth, acc, name) ==
               if depth + Levels(e.node) > STACK_LIMIT then StackLimit
               else AfterMember(dr, doc, j, depth, Put(acc, StringMeaning(e.name), Meaning(dr, e.node)),
                                StringMeaning(e.name))
    decreases e, 3
  {
    hide *;
    MatchInside(doc, i, EntryText(e) + more);
    EntryIs(dr, e);
    NameRead(dr, e, more, doc, i);
    MembersUnfold(dr, doc, i, depth, acc, name);
    var d := i + |GapText(e.before)| + |StringText(e.name)| + 2 + |e.blanks|;
    var key := StringMeaning(e.name);
    SpacedRead(dr, e.gap, e.node, more, doc, d + 1, depth + 1, Lookup(acc, key));
    MemberOutcomeOf(dr, doc, d + 1, depth, acc, key);
    MatchInside(doc, i + |EntryText(e)|, more);
    ExpectedIs(Meaning(dr, e.node), i + |EntryText(e)|, depth + Levels(e.node));
  }

  lemma MembersSpelled(dr: DoubleReader, ms: Members, name: Bytes, m: map<Bytes, Value>)
    ensures ms.Closed? ==> MembersText(ms) == GapText(ms.gap) + [125] && MembersLevels(ms) == 0
    ensures ms.Closed? ==> MembersMeaning(dr, ms, m) == m && (IsMembers(dr, ms, name) <==> IsGap(ms.gap) && name == [])
    ensures ms.LastMember? ==> MembersText(ms) == EntryText(ms.entry) + (GapText(ms.after) + [125])
    ensures ms.LastMember? ==> MembersLevels(ms) == Levels(ms.entry.node)
    ensures ms.LastMember? ==> (IsMembers(dr, ms, name) <==> IsEntry(dr, ms.entry) && IsGap(ms.after))
    ensures ms.LastMember? ==>
              MembersMeaning(dr, ms, m) == m[StringMeaning(ms.entry.name) := Meaning(dr, ms.entry.node)]
    ensures ms.NextMember? ==>
              MembersText(ms) == EntryText(ms.entry) + (GapText(ms.after) + (MarkText(ms.mark) + MembersText(ms.rest)))
    ensures ms.NextMember? ==> MembersLevels(ms) == Max(Levels(ms.entry.node), MembersLevels(ms.rest))
    ensures ms.NextMember? ==>
              (IsMembers(dr, ms, name) <==> IsEntry(dr, ms.entry) && Separates(ms.after, ms.mark) &&
                                            IsMembers(dr, ms.rest, StringMeaning(ms.entry.name)))
    ensures ms.NextMember? ==>
              MembersMeaning(dr, ms, m) ==
              MembersMeaning(dr, ms.rest, m[StringMeaning(ms.entry.name) := Meaning(dr, ms.entry.node)])
  {
    hide GapText, EntryText, MarkText, Levels, Meaning, StringMeaning, IsGap, IsEntry, Separates;
  }

  lemma MembersFirst(dr: DoubleReader, ms: Members, name: Bytes)
    requires IsMembers(dr, ms, name)
    ensures MembersText(ms) != [] && Delimits(MembersText(ms)[0])
  {
    hide *;
    MarkDelimits();
    MembersSpelled(dr, ms, name, map[]);
    if ms.Closed? {
      GapFirst(ms.gap, [125]);
    } else {
      var e := ms.entry;
      EntryIs(dr, e);
      var more := [34] + (StringText(e.name) + ([34] + (e.blanks + ([58] + (GapText(e.gap) + NodeText(e.node))))));
      GapFirst(e.before, more);
      assert MembersText(ms)[0] == EntryText(e)[0];
    }
  }

  lemma KeywordApart(doc: Bytes, i: nat)
    requires i < |doc| && (i + 1 < |doc| ==> Delimits(doc[i + 1]))
    ensures !Matches(doc, i + 1, RUE) && !Matches(doc, i + 1, ALSE) && !Matches(doc, i + 1, ULL)
  {
    if Matches(doc, i + 1, RUE) { MatchAt(doc, i + 1, RUE, 0); }
    if Matches(doc, i + 1, ALSE) { MatchAt(doc, i + 1, ALSE, 0); }
    if Matches(doc, i + 1, ULL) { MatchAt(doc, i + 1, ULL, 0); }
  }

  lemma SingleRead(doc: Bytes, i: nat)
    requires i < |doc| && Single(doc[i]) && (i + 1 < |doc| ==> Delimits(doc[i + 1]))
    ensures var t := ReadSkippingComments(doc, i);
            t.end == i + 1 && t.kind != ObjectEnd && (doc[i] == 44 ==> t.kind == ArraySeparator)
  {
    hide Matches, Delimits;
    KeywordApart(doc, i);
    TokenHere(doc, i);
    hide ReadSkippingComments, ReadToken, ScanString, CommentEnd, NumberEnd;
  }

  lemma UnquotedIsSafe(body: Bytes)
    ensures Unquoted(body) <==> Safe(body)
  {
  }

  lemma StringMarkRead(doc: Bytes, i: nat, body: Bytes)
    requires Unquoted(body) && Matches(doc, i, [34] + (body + [34]))
    ensures i + |body| + 2 <= |doc| && ReadSkippingComments(doc, i) == Token(TokenType.String, i, i + |body| + 2)
  {
    hide *;
    UnquotedIsSafe(body);
    MatchHead(doc, i, [34], body + [34]);
    MatchAt(doc, i, [34], 0);
    MatchHead(doc, i + 1, body, [34]);
    MatchIs(doc, i + 1, body);
    MatchAt(doc, i + 1 + |body|, [34], 0);
    QuoteEnds(doc, i + 1, |body|);
    QuotedHere(doc, i, |body| + 1);
  }

  lemma SlashMarkRead(doc: Bytes, i: nat)
    requires i + 1 < |doc| && doc[i] == 47 && doc[i + 1] != 42 && doc[i + 1] != 47
    ensures ReadSkippingComments(doc, i) == Token(ErrorToken, i, i + 2)
  {
    hide ReadToken, ReadSkippingComments;
    SlashHere(doc, i);
    CommentSkipped(doc, i);
  }

  lemma MarkIs(m: Mark)
    requires IsMark(m)
    ensures m.CommaMark? ==> MarkText(m) == [44] && Single(44)
    ensures m.ByteMark? ==> MarkText(m) == [m.b] && Single(m.b)
    ensures m.WordMark? ==> MarkText(m) == m.word
    ensures m.WordMark? ==> m.word == NULL_TEXT || m.word == TRUE_TEXT || m.word == FALSE_TEXT
    ensures m.NumberMark? ==> MarkText(m) == NumeralText(m.n) && IsNumeral(m.n)
    ensures m.StringMark? ==> MarkText(m) == [34] + (m.body + [34]) && Unquoted(m.body)
    ensures m.SlashMark? ==> MarkText(m) == [47, m.b] && m.b != 42 && m.b != 47
  {
    hide NumeralText, IsNumeral, Unquoted;
  }

  /** Whatever separates members is passed over as one token. */
  lemma MarkRead(doc: Bytes, i: nat, m: Mark, more: Bytes)
    requires IsMark(m) && Matches(doc, i, MarkText(m) + more) && more != [] && Delimits(more[0])
    ensures var t := ReadSkippingComments(doc, i);
            && i <= |doc| && t.end == i + |MarkText(m)| && t.kind != ObjectEnd
            && (m.CommaMark? ==> t.kind == ArraySeparator)
            && Matches(doc, t.end, more)
  {
    hide *;
    MarkIs(m);
    MatchHead(doc, i, MarkText(m), more);
    var j := i + |MarkText(m)|;
    MatchAt(doc, j, more, 0);
    match m
    case CommaMark =>
      MatchAt(doc, i, MarkText(m), 0);
      SingleRead(doc, i);
    case ByteMark(b) =>
      MatchAt(doc, i, MarkText(m), 0);
      SingleRead(doc, i);
    case WordMark(w) => KeywordBack(doc, i, w);
    case NumberMark(n) =>
      DelimitStops(NullNode, n, doc, j);
      NumeralEnds(doc, i, n);
    case StringMark(body) => StringMarkRead(doc, i, body);
    case SlashMark(b) =>
      MatchAt(doc, i, MarkText(m), 0);
      MatchAt(doc, i, MarkText(m), 1);
      SlashMarkRead(doc, i);
  }

  lemma ListingIs(ms: seq<Member>, m: map<Bytes, Value>)
    requires Lists(ms, m)
    ensures ms == Listing(m)
  {
    hide Ascending;
    ListsOnce(ms, Listing(m));
  }

  /** What separates a member from the next one. */
  lemma SeparatorRead(dr: DoubleReader, after: Gap, mark: Mark, rest: Members, name: Bytes, doc: Bytes, j: nat)
    requires Separates(after, mark) && IsMembers(dr, rest, name)
    requires Matches(doc, j, GapText(after) + (MarkText(mark) + MembersText(rest)))
    ensures var next := ReadSkippingComments(doc, j);
            && j <= |doc| && next.kind != ObjectEnd
            && (next.kind == ArraySeparator || ReadToken(doc, j).kind == Comment)
            && next.end == j + |GapText(after)| + |MarkText(mark)| && Matches(doc, next.end, MembersText(rest))
  {
    hide *;
    SeparatesIs(after, mark);
    MembersFirst(dr, rest, name);
    MatchHead(doc, j, GapText(after), MarkText(mark) + MembersText(rest));
    GapSkipped(doc, j, after);
    MarkRead(doc, j + |GapText(after)|, mark, MembersText(rest));
  }

  lemma SeparatesIs(after: Gap, mark: Mark)
    ensures Separates(after, mark) <==> IsGap(after) && IsMark(mark) && (mark.CommaMark? || HasComment(after))
    ensures HasComment(after) ==> after != []
  {
    hide IsMark, IsGap;
  }

  lemma {:induction false} MembersRead(dr: DoubleReader, ms: Members, doc: Bytes, i: nat, depth: nat, acc: seq<Member>,
                                       m: map<Bytes, Value>, name: Bytes)
    requires IsMembers(dr, ms, name) && Matches(doc, i, MembersText(ms)) && Lists(acc, m)
    requires depth <= STACK_LIMIT
    ensures ReadMembers(dr, doc, i, depth, acc, name) ==
            Expected(Obj(Listing(MembersMeaning(dr, ms, m))), i + |MembersText(ms)|, depth + MembersLevels(ms))
    decreases ms, 0
  {
    hide *;
    MatchInside(doc, i, MembersText(ms));
    MembersSpelled(dr, ms, name, m);
    MarkDelimits();
    ExpectedIs(Obj(Listing(MembersMeaning(dr, ms, m))), i + |MembersText(ms)|, depth + MembersLevels(ms));
    if ms.Closed? {
      ListingIs(acc, m);
      BraceRead(doc, i, ms.gap);
      MembersUnfold(dr, doc, i, depth, acc, name);
    } else {
      var e := ms.entry;
      var key, value := StringMeaning(e.name), Meaning(dr, e.node);
      var acc', m', j := Put(acc, key, value), m[key := value], i + |EntryText(e)|;
      PutLists(acc, m, key, value);
      if ms.LastMember? {
        GapFirst(ms.after, [125]);
        EntryRead(dr, e, GapText(ms.after) + [125], doc, i, depth, acc, name);
        AfterMemberIs(dr, doc, j, depth, acc', key);
        BraceRead(doc, j, ms.after);
        ListingIs(acc', m');
      } else {
        SeparatorFirst(ms.after, ms.mark, MembersText(ms.rest));
        EntryRead(dr, e, GapText(ms.after) + (MarkText(ms.mark) + MembersText(ms.rest)), doc, i, depth, acc, name);
        AfterMemberIs(dr, doc, j, depth, acc', key);
        SeparatorRead(dr, ms.after, ms.mark, ms.rest, key, doc, j);
        JsonRoundTrip.MaxIs(Levels(e.node), MembersLevels(ms.rest));
        var k := j + |GapText(ms.after)| + |MarkText(ms.mark)|;
        MembersRead(dr, ms.rest, doc, k, depth, acc', m', key);
        ExpectedIs(Obj(Listing(MembersMeaning(dr, ms.rest, m'))), k + |MembersText(ms.rest)|,
                   depth + MembersLevels(ms.rest));
      }
    }
  }

  lemma BraceRead(doc: Bytes, i: nat, gap: Gap)
    requires IsGap(gap) && Matches(doc, i, GapText(gap) + [125])
    ensures var j := i + |GapText(gap)|; i <= |doc| && ReadSkippingComments(doc, i) == Token(ObjectEnd, j, j + 1)
  {
    hide *;
    MatchHead(doc, i, GapText(gap), [125]);
    MatchAt(doc, i + |GapText(gap)|, [125], 0);
    GapSkipped(doc, i, gap);
    MarkHere(doc, i + |GapText(gap)|, ObjectEnd);
  }

  lemma SeparatorFirst(after: Gap, mark: Mark, more: Bytes)
    requires Separates(after, mark)
    ensures var all := GapText(after) + (MarkText(mark) + more); all != [] && Delimits(all[0])
  {
    hide *;
    SeparatesIs(after, mark);
    MarkIs(mark);
    MarkDelimits();
    GapFirst(after, MarkText(mark) + more);
  }

  // ----- What is read is a text --------------------------------------------------------------

  lemma MatchJoin(doc: Bytes, i: nat, a: Bytes, b: Bytes)
    requires Matches(doc, i, a) && Matches(doc, i + |a|, b)
    ensures Matches(doc, i, a + b)
  {
    assert doc[i..i + |a| + |b|] == doc[i..i + |a|] + doc[i + |a|..i + |a| + |b|];
  }

  lemma MatchOne(doc: Bytes, i: nat)
    requires i < |doc|
    ensures Matches(doc, i, [doc[i]])
  {
  }

  lemma MatchSlice(doc: Bytes, i: nat, j: nat)
    requires i <= j <= |doc|
    ensures Matches(doc, i, doc[i..j])
  {
  }

  lemma {:induction false} BlockFound(doc: Bytes, i: nat) returns (body: Bytes)
    requires i <= |doc| && CCommentEnd(doc, i).0 && CCommentEnd(doc, i).1 < |doc|
    ensures IsFiller(Block(body)) && Matches(doc, i, body + [42, 47])
    decreases |doc| - i
  {
    if doc[i] == 42 && doc[i + 1] == 47 {
      body := [];
    } else {
      var rest := BlockFound(doc, i + 1);
      body := [doc[i]] + rest;
      forall k | 0 <= k < |body| ensures !StarSlash(body, k) {
        if k > 0 {
          assert !StarSlash(rest, k - 1);
        } else if |rest| > 0 {
          MatchAt(doc, i + 1, rest + [42, 47], 0);
        }
      }
      assert body + [42, 47] == [doc[i]] + (rest + [42, 47]);
      MatchOne(doc, i);
      MatchJoin(doc, i, [doc[i]], rest + [42, 47]);
    }
  }

  lemma {:induction false} LineFound(doc: Bytes, i: nat) returns (body: Bytes, eol: Byte)
    requires i <= |doc| && LineCommentEnd(doc, i) < |doc|
    ensures IsFiller(Line(body, eol)) && Matches(doc, i, body + [eol])
    decreases |doc| - i
  {
    MatchOne(doc, i);
    if doc[i] == 10 || doc[i] == 13 {
      body, eol := [], doc[i];
      assert body + [eol] == [doc[i]];
    } else {
      var rest;
      rest, eol := LineFound(doc, i + 1);
      body := [doc[i]] + rest;
      assert body + [eol] == [doc[i]] + (rest + [eol]);
      MatchJoin(doc, i, [doc[i]], rest + [eol]);
    }
  }

  /** A comment before the next token is one of the two kinds. */
  lemma CommentFound(doc: Bytes, i: nat) returns (f: Filler)
    requires i < |doc| && !IsSpace(doc[i]) && ReadToken(doc, i).kind == Comment && ReadToken(doc, i).end < |doc|
    ensures IsFiller(f) && !f.Blank? && Matches(doc, i, FillerText(f))
  {
    hide ReadToken, CCommentEnd, LineCommentEnd, Matches, IsFiller;
    CommentSlash(doc, i);
    SlashHere(doc, i);
    MatchOne(doc, i);
    MatchOne(doc, i + 1);
    MatchJoin(doc, i, [doc[i]], [doc[i + 1]]);
    assert [doc[i]] + [doc[i + 1]] == [doc[i], doc[i + 1]];
    if doc[i + 1] == 42 {
      var body := BlockFound(doc, i + 2);
      MatchJoin(doc, i, [47, 42], body + [42, 47]);
      f := Block(body);
    } else {
      var body, eol := LineFound(doc, i + 2);
      MatchJoin(doc, i, [47, 47], body + [eol]);
      f := Line(body, eol);
    }
  }

  lemma CommentSlash(doc: Bytes, i: nat)
    requires i < |doc| && !IsSpace(doc[i]) && ReadToken(doc, i).kind == Comment
    ensures doc[i] == 47
  {
    TokenHere(doc, i);
    hide ReadSkippingComments, ReadToken, CommentEnd, ScanString, NumberEnd;
  }

  /** What is passed over before a token is a gap. */
  lemma {:induction false} GapFound(doc: Bytes, i: nat) returns (g: Gap)
    requires i <= |doc| && ReadSkippingComments(doc, i).start < |doc|
    ensures IsGap(g) && Matches(doc, i, GapText(g)) && i + |GapText(g)| == ReadSkippingComments(doc, i).start
    ensures ReadToken(doc, i).kind == Comment <==> HasComment(g)
    decreases |doc| - i
  {
    hide *;
    CommentSkipped(doc, i);
    NoGap();
    var f: Filler;
    if IsSpace(doc[i]) {
      f := Blank(doc[i]);
      BlankIsSpace(doc[i]);
      BlankIs(doc[i]);
      MatchOne(doc, i);
    } else if ReadToken(doc, i).kind == Comment {
      f := CommentFound(doc, i);
    } else {
      g := [];
      NothingHere(doc, i);
      return;
    }
    FillerSkipped(doc, i, f);
    FillerFirst(f);
    var rest := GapFound(doc, i + |FillerText(f)|);
    g := [f] + rest;
    GapCons(f, rest);
    MatchJoin(doc, i, FillerText(f), GapText(rest));
  }

  lemma NothingHere(doc: Bytes, i: nat)
    requires i < |doc| && !IsSpace(doc[i])
    ensures Matches(doc, i, []) && ReadToken(doc, i).start == i
  {
    TokenHere(doc, i);
  }

  lemma BlankIs(b: Byte)
    ensures FillerText(Blank(b)) == [b] && (IsBlank(b) <==> IsFiller(Blank(b)))
  {
  }

  lemma GapCons(f: Filler, rest: Gap)
    requires IsFiller(f) && IsGap(rest)
    ensures IsGap([f] + rest) && GapText([f] + rest) == FillerText(f) + GapText(rest)
    ensures HasComment([f] + rest) <==> !f.Blank? || HasComment(rest)
  {
    hide FillerText, IsFiller;
    var g := [f] + rest;
    assert g[1..] == rest && g[0] == f;
    GapParts(g);
  }

  lemma {:induction false} BlanksFound(doc: Bytes, i: nat)
    requires i <= |doc|
    ensures AllBlank(doc[i..SkipSpaces(doc, i)]) && Matches(doc, i, doc[i..SkipSpaces(doc, i)])
    decreases |doc| - i
  {
    var j := SkipSpaces(doc, i);
    if i < |doc| && IsSpace(doc[i]) {
      BlanksFound(doc, i + 1);
      assert doc[i..j] == [doc[i]] + doc[i + 1..j];
    }
  }

  // ----- Numbers and strings found -----------------------------------------------------------

  lemma {:induction false} DigitsFound(doc: Bytes, i: nat)
    requires i <= |doc|
    ensures var j := SkipDigits(doc, i);
            DigitChars(doc[i..j]) && Matches(doc, i, doc[i..j]) && (j < |doc| ==> !IsDigit(doc[j]))
    decreases |doc| - i
  {
    var j := SkipDigits(doc, i);
    if i < |doc| && IsDigit(doc[i]) {
      DigitsFound(doc, i + 1);
      assert doc[i..j] == [doc[i]] + doc[i + 1..j];
    }
  }

  function ExponentAt(doc: Bytes, b: nat): Option<Exponent>
    requires b <= |doc|
  {
    if At(doc, b, 101) || At(doc, b, 69) then
      var c := if At(doc, b + 1, 43) || At(doc, b + 1, 45) then b + 2 else b + 1;
      Some(Exponent(doc[b], doc[b + 1..c], doc[c..SkipDigits(doc, c)]))
    else None
  }

  function FractionAt(doc: Bytes, a: nat): Option<Bytes>
    requires a <= |doc|
  {
    if At(doc, a, 46) then Some(doc[a + 1..SkipDigits(doc, a + 1)]) else None
  }

  lemma ExponentFound(doc: Bytes, b: nat, n: Numeral)
    requires b <= |doc| && n.exponent == ExponentAt(doc, b)
    requires n.exponent.None? && b < |doc| ==> !IsDigit(doc[b]) && (n.fraction.None? ==> doc[b] != 46)
    ensures n.exponent.Some? ==> IsExponent(n.exponent.value)
    ensures Matches(doc, b, ExponentText(n)) && b + |ExponentText(n)| == ExponentEnd(doc, b)
    ensures Ends(n, doc, ExponentEnd(doc, b))
  {
    hide SkipDigits, Matches, DigitChars;
    if n.exponent.Some? {
      var c := if At(doc, b + 1, 43) || At(doc, b + 1, 45) then b + 2 else b + 1;
      DigitsFound(doc, c);
      var j := SkipDigits(doc, c);
      var x := n.exponent.value;
      SignIs(doc, b + 1, c);
      MatchOne(doc, b);
      MatchSlice(doc, b + 1, c);
      MatchJoin(doc, b + 1, x.sign, x.digits);
      MatchJoin(doc, b, [x.letter], x.sign + x.digits);
    } else {
      MatchSlice(doc, b, b);
    }
  }

  lemma SignIs(doc: Bytes, b: nat, c: nat)
    requires b <= |doc| && c == if At(doc, b, 43) || At(doc, b, 45) then b + 1 else b
    ensures doc[b..c] == [] || doc[b..c] == [43] || doc[b..c] == [45]
    ensures |doc[b..c]| == c - b
  {
    if c > b { assert doc[b..c] == [doc[b]]; }
  }

  lemma FractionFound(doc: Bytes, a: nat, n: Numeral)
    requires a <= |doc| && n.fraction == FractionAt(doc, a) && (a < |doc| ==> !IsDigit(doc[a]))
    ensures n.fraction.Some? ==> DigitChars(n.fraction.value)
    ensures Matches(doc, a, FractionText(n)) && a + |FractionText(n)| == FractionEnd(doc, a)
    ensures var b := FractionEnd(doc, a); b < |doc| ==> !IsDigit(doc[b]) && (n.fraction.None? ==> doc[b] != 46)
  {
    hide SkipDigits, Matches, DigitChars;
    if n.fraction.Some? {
      DigitsFound(doc, a + 1);
      MatchOne(doc, a);
      MatchJoin(doc, a, [46], n.fraction.value);
    } else {
      MatchSlice(doc, a, a);
    }
  }

  /** What `readNumber` passes over is a number, and it ends there. */
  lemma NumeralFound(doc: Bytes, i: nat) returns (n: Numeral)
    requires i < |doc| && (IsDigit(doc[i]) || doc[i] == 45)
    ensures IsNumeral(n) && Matches(doc, i, NumeralText(n)) && i + |NumeralText(n)| == NumberEnd(doc, i + 1)
    ensures Ends(n, doc, i + |NumeralText(n)|)
  {
    hide Matches, SkipDigits, ExponentEnd, FractionEnd, ExponentText, FractionText, NumberEnd, DigitChars, IsExponent,
         ExponentAt, FractionAt, Ends;
    NumberEndIs(doc, i + 1);
    DigitsFound(doc, i + 1);
    var a := SkipDigits(doc, i + 1);
    var b := FractionEnd(doc, a);
    var minus := doc[i] == 45;
    var digits := if minus then doc[i + 1..a] else doc[i..a];
    n := Numeral(minus, digits, FractionAt(doc, a), ExponentAt(doc, b));
    FractionFound(doc, a, n);
    ExponentFound(doc, b, n);
    FirstFound(doc, i, a);
    MatchJoin(doc, a, FractionText(n), ExponentText(n));
    NumeralJoin(doc, i, n);
  }

  lemma NumeralJoin(doc: Bytes, i: nat, n: Numeral)
    requires i < |doc| && (n.minus ==> doc[i] == 45)
    requires var d := if n.minus then i + 1 else i;
             Matches(doc, d, n.digits) && Matches(doc, d + |n.digits|, FractionText(n) + ExponentText(n))
    ensures Matches(doc, i, NumeralText(n))
    ensures |NumeralText(n)| == |MinusText(n)| + |n.digits| + |FractionText(n) + ExponentText(n)|
  {
    hide Matches, FractionText, ExponentText;
    var more := FractionText(n) + ExponentText(n);
    MatchJoin(doc, if n.minus then i + 1 else i, n.digits, more);
    MatchOne(doc, i);
    if n.minus {
      MatchJoin(doc, i, [45], n.digits + more);
    } else {
      assert NumeralText(n) == n.digits + more;
    }
  }

  lemma FirstFound(doc: Bytes, i: nat, a: nat)
    requires i < a <= |doc| && DigitChars(doc[i + 1..a])
    ensures IsDigit(doc[i]) ==> DigitChars(doc[i..a])
    ensures Matches(doc, i, doc[i..a]) && Matches(doc, i + 1, doc[i + 1..a])
  {
    assert doc[i..a] == [doc[i]] + doc[i + 1..a];
  }

  lemma {:induction false} ScanSafe(d: Bytes)
    requires ScanString(d).0
    ensures var n := ScanString(d).1; 1 <= n <= |d| && Safe(d[..n - 1]) && d[n - 1] == 34
    decreases |d|
  {
    var n := ScanString(d).1;
    if d[0] == BACKSLASH {
      ScanSafe(d[2..]);
      assert d[..n - 1][2..] == d[2..][..n - 3];
    } else if d[0] != QUOTE {
      ScanSafe(d[1..]);
      assert d[..n - 1][1..] == d[1..][..n - 2];
    }
  }

  /** The first piece of a body that decodes. */
  lemma PieceFound(b: Bytes) returns (p: Piece, rest: Bytes)
    requires b != [] && Safe(b) && DecodeBody(b).Text?
    ensures IsPiece(p) && b == PieceText(p) + rest && Safe(rest) && |rest| < |b|
  {
    if b[0] != BACKSLASH {
      p, rest := Raw(b[0]), b[1..];
    } else if b[1] != LOWER_U {
      p, rest := Escape(b[1]), b[2..];
      EscapedIs(b[1]);
    } else {
      p, rest := UnicodeFound(b);
    }
  }

  lemma UnicodeFound(b: Bytes) returns (p: Piece, rest: Bytes)
    requires |b| >= 2 && Safe(b) && b[0] == BACKSLASH && b[1] == LOWER_U && UnicodeCodePoint(b[2..]).CodePoint?
    ensures IsPiece(p) && b == PieceText(p) + rest && Safe(rest) && |rest| < |b|
  {
    hide Safe, EscapeSequence, HexNumber;
    var c := b[2..];
    SafeTail(b, 2);
    UnitFound(c);
    var hex := c[..4];
    if !(0xD800 <= HexNumber(hex) <= 0xDBFF) {
      p, rest := Unit(hex), c[4..];
      assert b == [92, 117] + hex + rest;
    } else {
      SafeTail(c[4..], 2);
      UnitFound(c[6..]);
      p, rest := Pair(hex, c[6..10]), c[10..];
      assert c[6..][..4] == c[6..10] && c[6..][4..] == rest;
      assert b == [92, 117] + (hex + ([92, 117] + c[6..10])) + rest;
    }
  }

  lemma SafeTail(b: Bytes, k: nat)
    requires Safe(b) && k <= |b| && b != [] && k == if b[0] == BACKSLASH then 2 else 1
    ensures Safe(b[k..])
  {
  }

  lemma UnitFound(b: Bytes)
    requires Safe(b) && EscapeSequence(b).CodePoint?
    ensures |b| >= 4 && IsHex(b[..4]) && HexNumber(b[..4]) == EscapeSequence(b).cp && Safe(b[4..])
  {
    HexDigitRead(b[0]);
    HexDigitRead(b[1]);
    HexDigitRead(b[2]);
    HexDigitRead(b[3]);
    HexRead(b[..4], b[4..]);
    assert b[..4] + b[4..] == b;
    SafeTail(b, 1);
    SafeTail(b[1..], 1);
    SafeTail(b[2..], 1);
    SafeTail(b[3..], 1);
    assert b[1..][1..] == b[2..] && b[2..][1..] == b[3..] && b[3..][1..] == b[4..];
  }

  lemma {:induction false} StringFound(b: Bytes) returns (ps: seq<Piece>)
    requires Safe(b) && DecodeBody(b).Text?
    ensures IsString(ps) && StringText(ps) == b
    decreases |b|
  {
    hide Safe, DecodeBody, PieceText, IsPiece, Then;
    if b == [] {
      ps := [];
    } else {
      var p, rest := PieceFound(b);
      PieceDecoded(p, rest);
      ThenKeeps(PieceMeaning(p), DecodeBody(rest));
      var more := StringFound(rest);
      ps := [p] + more;
      assert ps[1..] == more;
    }
  }

  lemma ThenKeeps(a: Bytes, d: Decoded)
    ensures Then(a, d).Text? <==> d.Text?
  {
  }

  // ----- Values found ------------------------------------------------------------------------

  predicate Succeeds(r: Outcome) {
    r.Done? && r.ok
  }

  /** The token behind a gap starts there. */
  lemma {:induction false} TokenFound(doc: Bytes, i: nat)
    requires i <= |doc| && ReadSkippingComments(doc, i).start < |doc|
    ensures var t := ReadSkippingComments(doc, i); !IsSpace(doc[t.start]) && TokenAt(doc, t.start) == (t.kind, t.end)
    decreases |doc| - i
  {
    hide TokenAt;
    if ReadToken(doc, i).kind == Comment {
      TokenFound(doc, ReadToken(doc, i).end);
    }
  }

  /** What each kind of token looks like. */
  lemma KindFound(doc: Bytes, s: nat)
    requires s < |doc|
    ensures var (kind, end) := TokenAt(doc, s);
            && (kind == ObjectBegin ==> doc[s] == 123 && end == s + 1)
            && (kind == ObjectEnd ==> doc[s] == 125 && end == s + 1)
            && (kind == ArrayBegin ==> doc[s] == 91 && end == s + 1)
            && (kind == ArrayEnd ==> doc[s] == 93 && end == s + 1)
            && (kind == ArraySeparator ==> doc[s] == 44 && end == s + 1)
            && (kind == MemberSeparator ==> doc[s] == 58 && end == s + 1)
            && (kind == TokenType.String ==>
                  doc[s] == 34 && ScanString(doc[s + 1..]).0 && end == s + 1 + ScanString(doc[s + 1..]).1)
            && (kind == TokenType.Number ==> (IsDigit(doc[s]) || doc[s] == 45) && end == NumberEnd(doc, s + 1))
            && (kind == True ==> doc[s] == 116 && Matches(doc, s + 1, RUE) && end == s + 4)
            && (kind == False ==> doc[s] == 102 && Matches(doc, s + 1, ALSE) && end == s + 5)
            && (kind == NullToken ==> doc[s] == 110 && Matches(doc, s + 1, ULL) && end == s + 4)
  {
    hide ScanString, CommentEnd, NumberEnd, Matches;
  }

  lemma WordFound(doc: Bytes, s: nat, word: Bytes)
    requires word == NULL_TEXT || word == TRUE_TEXT || word == FALSE_TEXT
    requires s < |doc| && doc[s] == word[0] && Matches(doc, s + 1, word[1..])
    ensures Matches(doc, s, word)
  {
    hide Matches;
    MatchOne(doc, s);
    MatchJoin(doc, s, [doc[s]], word[1..]);
    assert word == [word[0]] + word[1..];
  }

  lemma WordsFound(doc: Bytes, s: nat)
    requires s < |doc|
    ensures TokenAt(doc, s).0 == True ==> Matches(doc, s, TRUE_TEXT) && TokenAt(doc, s).1 == s + |TRUE_TEXT|
    ensures TokenAt(doc, s).0 == False ==> Matches(doc, s, FALSE_TEXT) && TokenAt(doc, s).1 == s + |FALSE_TEXT|
    ensures TokenAt(doc, s).0 == NullToken ==> Matches(doc, s, NULL_TEXT) && TokenAt(doc, s).1 == s + |NULL_TEXT|
  {
    hide TokenAt, Matches;
    KindFound(doc, s);
    KeywordParts(TRUE_TEXT);
    KeywordParts(FALSE_TEXT);
    KeywordParts(NULL_TEXT);
    if TokenAt(doc, s).0 == True { WordFound(doc, s, TRUE_TEXT); }
    if TokenAt(doc, s).0 == False { WordFound(doc, s, FALSE_TEXT); }
    if TokenAt(doc, s).0 == NullToken { WordFound(doc, s, NULL_TEXT); }
  }

  /** A quoted token without a quote inside. */
  lemma QuotedFound(doc: Bytes, s: nat) returns (body: Bytes)
    requires s < |doc| && TokenAt(doc, s).0 == TokenType.String
    ensures var end := TokenAt(doc, s).1;
            && end == s + |body| + 2 && end <= |doc| && body == doc[s + 1..end - 1] && Safe(body)
            && Matches(doc, s, [34] + (body + [34]))
  {
    hide TokenAt, Matches, Safe, ScanString;
    KindFound(doc, s);
    var rest := doc[s + 1..];
    ScanSafe(rest);
    var n := ScanString(rest).1;
    body := rest[..n - 1];
    var j := s + n;
    assert body == doc[s + 1..j];
    MatchSlice(doc, s + 1, j);
    MatchOne(doc, s);
    MatchOne(doc, j);
    MatchJoin(doc, s + 1, body, [34]);
    MatchJoin(doc, s, [34], body + [34]);
  }

  /** The node at `s` ends at `end`. */
  ghost predicate FoundAt(dr: DoubleReader, n: Node, doc: Bytes, s: nat, end: nat) {
    IsNode(dr, n) && Matches(doc, s, NodeText(n)) && end == s + |NodeText(n)| && Stopped(n, doc, end)
  }

  lemma FoundIs(dr: DoubleReader, n: Node, doc: Bytes, s: nat, end: nat)
    ensures FoundAt(dr, n, doc, s, end) <==>
            IsNode(dr, n) && Matches(doc, s, NodeText(n)) && end == s + |NodeText(n)| && Stopped(n, doc, end)
    ensures Stopped(n, doc, end) <==> (n.NumberNode? ==> Ends(n.n, doc, end))
  {
    hide IsNode, Matches, NodeText, Ends;
  }

  lemma NumberFound(dr: DoubleReader, doc: Bytes, t: Token, slot: Value) returns (n: Node)
    requires t.start < |doc| && TokenAt(doc, t.start) == (TokenType.Number, t.end) && t.end <= |doc|
    requires t.start <= t.end && Succeeds(NumberOutcome(dr, doc, t, slot))
    ensures FoundAt(dr, n, doc, t.start, t.end) && Levels(n) == 1
  {
    hide *;
    KindFound(doc, t.start);
    var m := NumeralFound(doc, t.start);
    n := NumberNode(m);
    MatchIs(doc, t.start, NumeralText(m));
    NumberMeans(dr, doc, t, slot, m);
    NodeIs(dr, n);
    FoundIs(dr, n, doc, t.start, t.end);
  }

  lemma NumberMeans(dr: DoubleReader, doc: Bytes, t: Token, slot: Value, m: Numeral)
    requires t.start <= t.end <= |doc| && IsNumeral(m) && doc[t.start..t.end] == NumeralText(m)
    requires Succeeds(NumberOutcome(dr, doc, t, slot))
    ensures NumeralMeaning(dr, m).Some?
  {
    hide NumberOf, NumeralText, IsNumeral, IntegerMeaning;
    NumeralValue(m);
  }

  lemma TextFound(dr: DoubleReader, doc: Bytes, t: Token, slot: Value) returns (n: Node)
    requires t.start < |doc| && TokenAt(doc, t.start) == (TokenType.String, t.end) && t.end <= |doc|
    requires t.start + 2 <= t.end && Succeeds(StringOutcome(doc, t, slot))
    ensures FoundAt(dr, n, doc, t.start, t.end) && Levels(n) == 1
  {
    hide TokenAt, Matches, DecodeBody, Safe, NodeText, IsNode, FoundAt;
    var body := QuotedFound(doc, t.start);
    var ps := StringFound(body);
    n := StringNode(ps);
    NodeIs(dr, n);
    FoundIs(dr, n, doc, t.start, t.end);
  }

  /** The token of a value that is neither an array nor an object. */
  lemma ScalarFound(dr: DoubleReader, doc: Bytes, t: Token, slot: Value) returns (n: Node)
    requires t.start < |doc| && TokenAt(doc, t.start) == (t.kind, t.end) && t.start <= t.end <= |doc|
    requires (t.kind == TokenType.String ==> t.start + 2 <= t.end) && Succeeds(ScalarOutcome(dr, doc, t, slot))
    ensures FoundAt(dr, n, doc, t.start, t.end) && Levels(n) == 1
  {
    hide TokenAt, Matches, NodeText, IsNode, FoundAt, NumberOutcome, StringOutcome, Ends;
    WordsFound(doc, t.start);
    match t.kind
    case Number => n := NumberFound(dr, doc, t, slot);
    case String => n := TextFound(dr, doc, t, slot);
    case True => n := TrueNode; NodeIs(dr, n); FoundIs(dr, n, doc, t.start, t.end);
    case False => n := FalseNode; NodeIs(dr, n); FoundIs(dr, n, doc, t.start, t.end);
    case NullToken => n := NullNode; NodeIs(dr, n); FoundIs(dr, n, doc, t.start, t.end);
  }

  /** `readValue`, by its first token. */
  lemma ValueIsRead(dr: DoubleReader, doc: Bytes, i: nat, depth: nat, slot: Value)
    requires i <= |doc| && Succeeds(ReadValue(dr, doc, i, depth, slot))
    ensures var t := ReadSkippingComments(doc, i);
            var r := ReadValue(dr, doc, i, depth, slot);
            && depth <= STACK_LIMIT && t.start < t.end
            && if t.kind == ObjectBegin then r == ReadMembers(dr, doc, t.end, depth, [], [])
               else if t.kind == ArrayBegin then
                 var s := SkipSpaces(doc, t.end);
                 if At(doc, s, 93) then r.end == ReadToken(doc, s).end else r == ReadItems(dr, doc, s, depth, [])
               else r == ScalarOutcome(dr, doc, t, slot)
  {
    hide ReadSkippingComments, ReadToken, ReadMembers, ReadItems, SkipSpaces, NumberOutcome, StringOutcome;
  }

  lemma EmptyFound(dr: DoubleReader, doc: Bytes, s: nat) returns (n: Node)
    requires s < |doc| && doc[s] == 91 && At(doc, SkipSpaces(doc, s + 1), 93)
    ensures FoundAt(dr, n, doc, s, ReadToken(doc, SkipSpaces(doc, s + 1)).end) && Levels(n) == 1
  {
    hide *;
    var j := SkipSpaces(doc, s + 1);
    AtIs(doc, j, 93);
    BlanksFound(doc, s + 1);
    var blanks := doc[s + 1..j];
    n := EmptyArray(blanks);
    MarkHere(doc, j, ArrayEnd);
    MatchOne(doc, s);
    MatchOne(doc, j);
    MatchJoin(doc, s + 1, blanks, [93]);
    MatchJoin(doc, s, [91], blanks + [93]);
    NodeIs(dr, n);
    FoundIs(dr, n, doc, s, j + 1);
  }

  /** Whatever is read as a value is a text. */
  lemma {:induction false} ValueFound(dr: DoubleReader, doc: Bytes, i: nat, depth: nat, slot: Value)
    returns (g: Gap, n: Node)
    requires i <= |doc| && Succeeds(ReadValue(dr, doc, i, depth, slot))
    ensures IsGap(g) && Matches(doc, i, GapText(g)) && depth + Levels(n) <= STACK_LIMIT + 1
    ensures FoundAt(dr, n, doc, i + |GapText(g)|, ReadValue(dr, doc, i, depth, slot).end)
    decreases |doc| - i, 0
  {
    hide *;
    ValueIsRead(dr, doc, i, depth, slot);
    var t := ReadSkippingComments(doc, i);
    g := GapFound(doc, i);
    TokenFound(doc, i);
    KindFound(doc, t.start);
    if t.kind == ObjectBegin {
      var ms := MembersFound(dr, doc, t.end, depth, [], []);
      n := ObjectJoin(dr, doc, t.start, ms);
    } else if t.kind == ArrayBegin {
      var s := SkipSpaces(doc, t.end);
      if At(doc, s, 93) {
        n := EmptyFound(dr, doc, t.start);
      } else {
        ItemsFromSpace(dr, doc, t.end, depth, []);
        var xs := ItemsFound(dr, doc, t.end, depth, []);
        n := ArrayJoin(dr, doc, t.start, xs);
      }
    } else {
      n := ScalarFound(dr, doc, t, slot);
    }
  }

  lemma ObjectJoin(dr: DoubleReader, doc: Bytes, s: nat, ms: Members) returns (n: Node)
    requires s < |doc| && doc[s] == 123 && Matches(doc, s + 1, MembersText(ms)) && IsMembers(dr, ms, [])
    ensures FoundAt(dr, n, doc, s, s + 1 + |MembersText(ms)|) && Levels(n) == 1 + MembersLevels(ms)
  {
    hide *;
    n := ObjectNode(ms);
    BracketJoin(doc, s, 123, MembersText(ms));
    NodeIs(dr, n);
    FoundIs(dr, n, doc, s, s + 1 + |MembersText(ms)|);
  }

  lemma ArrayJoin(dr: DoubleReader, doc: Bytes, s: nat, xs: Items) returns (n: Node)
    requires s < |doc| && doc[s] == 91 && Matches(doc, s + 1, ItemsText(xs)) && IsItems(dr, xs)
    ensures FoundAt(dr, n, doc, s, s + 1 + |ItemsText(xs)|) && Levels(n) == 1 + ItemsLevels(xs)
  {
    hide *;
    n := ArrayNode(xs);
    BracketJoin(doc, s, 91, ItemsText(xs));
    NodeIs(dr, n);
    FoundIs(dr, n, doc, s, s + 1 + |ItemsText(xs)|);
  }

  lemma BracketJoin(doc: Bytes, s: nat, b: Byte, more: Bytes)
    requires s < |doc| && doc[s] == b && Matches(doc, s + 1, more)
    ensures Matches(doc, s, [b] + more)
  {
    hide Matches;
    MatchOne(doc, s);
    MatchJoin(doc, s, [b], more);
  }

  lemma {:induction false} ItemsFound(dr: DoubleReader, doc: Bytes, i: nat, depth: nat, acc: seq<Value>)
    returns (xs: Items)
    requires i <= |doc| && Succeeds(ReadItems(dr, doc, i, depth, acc))
    ensures IsItems(dr, xs) && Matches(doc, i, ItemsText(xs)) && depth + ItemsLevels(xs) <= STACK_LIMIT
    ensures ReadItems(dr, doc, i, depth, acc).end == i + |ItemsText(xs)|
    decreases |doc| - i, 1
  {
    hide *;
    SucceedsIs(ReadItems(dr, doc, i, depth, acc));
    ItemsUnfold(dr, doc, i, depth, acc);
    var v := ReadValue(dr, doc, i, depth + 1, Null);
    SucceedsIs(v);
    var before, node := ValueFound(dr, doc, i, depth + 1, Null);
    FoundIs(dr, node, doc, i + |GapText(before)|, v.end);
    var t := ReadSkippingComments(doc, v.end);
    var after := ItemEndFound(doc, v.end);
    if t.kind == ArrayEnd {
      xs := LastItem(before, node, after);
    } else {
      SucceedsIs(ReadItems(dr, doc, t.end, depth, acc + [v.value]));
      var rest := ItemsFound(dr, doc, t.end, depth, acc + [v.value]);
      xs := NextItem(before, node, after, rest);
      BracketJoin(doc, t.start, 44, ItemsText(rest));
      JsonRoundTrip.MaxIs(Levels(node), ItemsLevels(rest));
    }
    ItemsSpelled(dr, xs);
    ItemsJoin(dr, xs, doc, i);
  }

  lemma ItemEndFound(doc: Bytes, j: nat) returns (after: Gap)
    requires j <= |doc|
    requires ReadSkippingComments(doc, j).kind == ArrayEnd || ReadSkippingComments(doc, j).kind == ArraySeparator
    ensures var t := ReadSkippingComments(doc, j);
            && IsGap(after) && Matches(doc, j, GapText(after)) && t.start == j + |GapText(after)| < |doc|
            && t.end == t.start + 1 && doc[t.start] == (if t.kind == ArrayEnd then 93 else 44)
            && Matches(doc, t.start, [doc[t.start]])
  {
    hide *;
    var t := ReadSkippingComments(doc, j);
    after := GapFound(doc, j);
    TokenFound(doc, j);
    KindFound(doc, t.start);
    MatchOne(doc, t.start);
  }

  lemma ItemsJoin(dr: DoubleReader, xs: Items, doc: Bytes, i: nat)
    requires Matches(doc, i, GapText(xs.before)) && Matches(doc, i + |GapText(xs.before)|, NodeText(xs.node))
    requires var j := i + |GapText(xs.before)| + |NodeText(xs.node)|;
             Matches(doc, j, GapText(xs.after)) && Matches(doc, j + |GapText(xs.after)|, ItemsTail(xs))
    ensures Matches(doc, i, ItemsText(xs))
    ensures |ItemsText(xs)| == |GapText(xs.before)| + |NodeText(xs.node)| + |GapText(xs.after)| + |ItemsTail(xs)|
  {
    hide *;
    ItemsSpelled(dr, xs);
    var k := i + |GapText(xs.before)|;
    MatchJoin(doc, k + |NodeText(xs.node)|, GapText(xs.after), ItemsTail(xs));
    MatchJoin(doc, k, NodeText(xs.node), GapText(xs.after) + ItemsTail(xs));
    MatchJoin(doc, i, GapText(xs.before), NodeText(xs.node) + (GapText(xs.after) + ItemsTail(xs)));
  }

  lemma SucceedsIs(r: Outcome)
    ensures Succeeds(r) <==> r.Done? && r.ok
  {
  }

  lemma EndToken(doc: Bytes)
    ensures ReadSkippingComments(doc, |doc|) == Token(EndOfStream, |doc|, |doc|)
  {
  }

  /** At the end of the document no member is found. */
  lemma MembersGoOn(dr: DoubleReader, doc: Bytes, i: nat, depth: nat, acc: seq<Member>, name: Bytes)
    requires i <= |doc| && Succeeds(ReadMembers(dr, doc, i, depth, acc, name))
    ensures i < |doc|
  {
    hide *;
    SucceedsIs(ReadMembers(dr, doc, i, depth, acc, name));
    EndToken(doc);
    MembersUnfold(dr, doc, i, depth, acc, name);
  }

  /** What is taken for a separator. */
  lemma MarkFound(doc: Bytes, s: nat) returns (m: Mark)
    requires s < |doc| && !IsSpace(doc[s]) && TokenAt(doc, s).1 < |doc|
    requires TokenAt(doc, s).0 != ObjectEnd && TokenAt(doc, s).0 != Comment
    ensures IsMark(m) && Matches(doc, s, MarkText(m)) && TokenAt(doc, s).1 == s + |MarkText(m)|
    ensures TokenAt(doc, s).0 == ArraySeparator ==> m.CommaMark?
  {
    hide TokenAt, Matches, NumeralText, IsNumeral, Unquoted, Safe, NumberEnd, ScanString;
    KindFound(doc, s);
    WordsFound(doc, s);
    MatchOne(doc, s);
    var kind := TokenAt(doc, s).0;
    if kind == ArraySeparator {
      m := CommaMark;
    } else if kind == True || kind == False || kind == NullToken {
      m := WordMark(if kind == True then TRUE_TEXT else if kind == False then FALSE_TEXT else NULL_TEXT);
    } else if kind == TokenType.Number {
      var n := NumeralFound(doc, s);
      m := NumberMark(n);
    } else if kind == TokenType.String {
      var body := QuotedFound(doc, s);
      UnquotedIsSafe(body);
      m := StringMark(body);
    } else if doc[s] == 47 {
      BadComment(doc, s);
      MatchOne(doc, s + 1);
      MatchJoin(doc, s, [doc[s]], [doc[s + 1]]);
      assert [doc[s]] + [doc[s + 1]] == [doc[s], doc[s + 1]];
      m := SlashMark(doc[s + 1]);
    } else {
      OneByte(doc, s);
      m := ByteMark(doc[s]);
    }
  }

  lemma {:induction false} UnclosedComment(doc: Bytes, i: nat)
    requires i <= |doc| && !CCommentEnd(doc, i).0
    ensures CCommentEnd(doc, i).1 == |doc|
    decreases |doc| - i
  {
    if i + 1 < |doc| { UnclosedComment(doc, i + 1); }
  }

  lemma {:induction false} UnclosedString(d: Bytes)
    requires !ScanString(d).0
    ensures ScanString(d).1 == |d|
    decreases |d|
  {
    if |d| >= 2 {
      if d[0] == BACKSLASH { UnclosedString(d[2..]); } else { UnclosedString(d[1..]); }
    }
  }

  lemma BadComment(doc: Bytes, s: nat)
    requires s < |doc| && doc[s] == 47 && TokenAt(doc, s).0 != Comment && TokenAt(doc, s).1 < |doc|
    ensures s + 1 < |doc| && doc[s + 1] != 42 && doc[s + 1] != 47 && TokenAt(doc, s).1 == s + 2
  {
    hide ScanString, NumberEnd, CCommentEnd, LineCommentEnd;
    if s + 1 < |doc| && doc[s + 1] == 42 && !CCommentEnd(doc, s + 2).0 { UnclosedComment(doc, s + 2); }
  }

  /** All other tokens are one byte long. */
  lemma OneByte(doc: Bytes, s: nat)
    requires s < |doc| && !IsSpace(doc[s]) && doc[s] != 47 && TokenAt(doc, s).1 < |doc|
    requires var kind := TokenAt(doc, s).0;
             kind != ObjectEnd && kind != True && kind != False && kind != NullToken && kind != TokenType.Number &&
             kind != TokenType.String
    ensures Single(doc[s]) && TokenAt(doc, s).1 == s + 1
  {
    hide NumberEnd, CommentEnd;
    if !ScanString(doc[s + 1..]).0 { UnclosedString(doc[s + 1..]); }
    hide ScanString;
  }

  /** A name is read, then a colon. */
  lemma NameFound(dr: DoubleReader, doc: Bytes, i: nat, depth: nat, acc: seq<Member>, name: Bytes)
    returns (before: Gap, ps: seq<Piece>, blanks: Bytes)
    requires i <= |doc| && Succeeds(ReadMembers(dr, doc, i, depth, acc, name))
    requires !(ReadSkippingComments(doc, i).kind == ObjectEnd && name == [])
    ensures IsGap(before) && IsString(ps) && AllBlank(blanks)
    ensures var b := i + |GapText(before)|;
            var d := b + |StringText(ps)| + 2 + |blanks|;
            && Matches(doc, i, GapText(before)) && Matches(doc, b, [34] + (StringText(ps) + [34]))
            && Matches(doc, b + |StringText(ps)| + 2, blanks) && d < |doc| && doc[d] == 58
            && ReadMembers(dr, doc, i, depth, acc, name) == MemberOutcome(dr, doc, d + 1, depth, acc, StringMeaning(ps))
  {
    hide *;
    SucceedsIs(ReadMembers(dr, doc, i, depth, acc, name));
    MembersUnfold(dr, doc, i, depth, acc, name);
    var t := ReadSkippingComments(doc, i);
    before := GapFound(doc, i);
    TokenFound(doc, i);
    var body := QuotedFound(doc, t.start);
    ps := StringFound(body);
    StringDecoded(ps);
    blanks := ColonFound(doc, t.end);
  }

  lemma ColonFound(doc: Bytes, c: nat) returns (blanks: Bytes)
    requires c <= |doc| && ReadToken(doc, c).kind == MemberSeparator
    ensures var d := c + |blanks|;
            && AllBlank(blanks) && Matches(doc, c, blanks) && d < |doc| && doc[d] == 58
            && ReadToken(doc, c).end == d + 1
  {
    hide *;
    var d := SkipSpaces(doc, c);
    BlanksFound(doc, c);
    blanks := doc[c..d];
    ReadTokenIs(doc, c);
    KindFound(doc, d);
  }

  lemma ReadTokenIs(doc: Bytes, i: nat)
    requires i <= |doc|
    ensures var s := SkipSpaces(doc, i);
            if s == |doc| then ReadToken(doc, i) == Token(EndOfStream, s, s)
            else ReadToken(doc, i) == Token(TokenAt(doc, s).0, s, TokenAt(doc, s).1)
  {
    hide TokenAt, SkipSpaces;
  }

  lemma EntryJoin(dr: DoubleReader, e: Entry, doc: Bytes, i: nat)
    requires Matches(doc, i, GapText(e.before))
    requires var b := i + |GapText(e.before)|;
             var c := b + |StringText(e.name)| + 2;
             var d := c + |e.blanks|;
             && Matches(doc, b, [34] + (StringText(e.name) + [34])) && Matches(doc, c, e.blanks)
             && d < |doc| && doc[d] == 58 && Matches(doc, d + 1, GapText(e.gap))
             && Matches(doc, d + 1 + |GapText(e.gap)|, NodeText(e.node))
    ensures Matches(doc, i, EntryText(e))
    ensures |EntryText(e)| ==
            |GapText(e.before)| + |StringText(e.name)| + 2 + |e.blanks| + 1 + |GapText(e.gap)| + |NodeText(e.node)|
  {
    hide *;
    EntryIs(dr, e);
    var b := i + |GapText(e.before)|;
    var c := b + |StringText(e.name)| + 2;
    var d := c + |e.blanks|;
    var value := GapText(e.gap) + NodeText(e.node);
    var quoted := [34] + (StringText(e.name) + [34]);
    MatchJoin(doc, d + 1, GapText(e.gap), NodeText(e.node));
    BracketJoin(doc, d, 58, value);
    MatchJoin(doc, c, e.blanks, [58] + value);
    MatchJoin(doc, b, quoted, e.blanks + ([58] + value));
    MatchJoin(doc, i, GapText(e.before), quoted + (e.blanks + ([58] + value)));
    EntryGrouped(GapText(e.before), StringText(e.name), e.blanks, GapText(e.gap), NodeText(e.node), []);
    assert EntryText(e) + [] == EntryText(e) && NodeText(e.node) + [] == NodeText(e.node);
  }

  /** Whatever is read as a member is the text of one. */
  lemma {:induction false} EntryFound(dr: DoubleReader, doc: Bytes, i: nat, depth: nat, acc: seq<Member>, name: Bytes)
    returns (e: Entry, acc': seq<Member>)
    requires i <= |doc| && Succeeds(ReadMembers(dr, doc, i, depth, acc, name))
    requires !(ReadSkippingComments(doc, i).kind == ObjectEnd && name == [])
    ensures IsEntry(dr, e) && Matches(doc, i, EntryText(e)) && depth + Levels(e.node) <= STACK_LIMIT
    ensures i + |EntryText(e)| <= |doc| && |EntryText(e)| > 0
    ensures ReadMembers(dr, doc, i, depth, acc, name) ==
            AfterMember(dr, doc, i + |EntryText(e)|, depth, acc', StringMeaning(e.name))
    decreases |doc| - i, 0
  {
    hide *;
    SucceedsIs(ReadMembers(dr, doc, i, depth, acc, name));
    var before, ps, blanks := NameFound(dr, doc, i, depth, acc, name);
    var d := i + |GapText(before)| + |StringText(ps)| + 2 + |blanks|;
    var key := StringMeaning(ps);
    MemberOutcomeOf(dr, doc, d + 1, depth, acc, key);
    var v := ReadValue(dr, doc, d + 1, depth + 1, Lookup(acc, key));
    SucceedsIs(v);
    var gap, node := ValueFound(dr, doc, d + 1, depth + 1, Lookup(acc, key));
    FoundIs(dr, node, doc, d + 1 + |GapText(gap)|, v.end);
    e := Entry(before, ps, blanks, gap, node);
    acc' := Put(acc, key, v.value);
    EntryJoin(dr, e, doc, i);
    EntryIs(dr, e);
  }

  lemma {:induction false} MembersFound(dr: DoubleReader, doc: Bytes, i: nat, depth: nat, acc: seq<Member>, name: Bytes)
    returns (ms: Members)
    requires i <= |doc| && Succeeds(ReadMembers(dr, doc, i, depth, acc, name)) && depth <= STACK_LIMIT
    ensures IsMembers(dr, ms, name) && Matches(doc, i, MembersText(ms)) && depth + MembersLevels(ms) <= STACK_LIMIT
    ensures ReadMembers(dr, doc, i, depth, acc, name).end == i + |MembersText(ms)|
    decreases |doc| - i, 1
  {
    hide *;
    SucceedsIs(ReadMembers(dr, doc, i, depth, acc, name));
    if ReadSkippingComments(doc, i).kind == ObjectEnd && name == [] {
      MembersUnfold(dr, doc, i, depth, acc, name);
      var gap := BraceFound(doc, i);
      ms := Closed(gap);
    } else {
      var e, acc' := EntryFound(dr, doc, i, depth, acc, name);
      var j, key := i + |EntryText(e)|, StringMeaning(e.name);
      AfterMemberIs(dr, doc, j, depth, acc', key);
      var next := ReadSkippingComments(doc, j);
      if next.kind == ObjectEnd {
        var gap := BraceFound(doc, j);
        ms := LastMember(e, gap);
        MatchJoin(doc, i, EntryText(e), GapText(gap) + [125]);
      } else {
        SucceedsIs(ReadMembers(dr, doc, next.end, depth, acc', key));
        MembersGoOn(dr, doc, next.end, depth, acc', key);
        var after, mark := SeparatorFound(doc, j);
        var rest := MembersFound(dr, doc, next.end, depth, acc', key);
        ms := NextMember(e, after, mark, rest);
        Join4(doc, i, EntryText(e), GapText(after), MarkText(mark), MembersText(rest));
        JsonRoundTrip.MaxIs(Levels(e.node), MembersLevels(rest));
      }
    }
    MembersSpelled(dr, ms, name, map[]);
  }

  lemma Join4(doc: Bytes, i: nat, a: Bytes, b: Bytes, c: Bytes, d: Bytes)
    requires Matches(doc, i, a) && Matches(doc, i + |a|, b) && Matches(doc, i + |a| + |b|, c)
    requires Matches(doc, i + |a| + |b| + |c|, d)
    ensures Matches(doc, i, a + (b + (c + d)))
  {
    hide *;
    MatchJoin(doc, i + |a| + |b|, c, d);
    MatchJoin(doc, i + |a|, b, c + d);
    MatchJoin(doc, i, a, b + (c + d));
  }

  lemma BraceFound(doc: Bytes, i: nat) returns (gap: Gap)
    requires i <= |doc| && ReadSkippingComments(doc, i).kind == ObjectEnd
    ensures IsGap(gap) && Matches(doc, i, GapText(gap) + [125])
    ensures ReadSkippingComments(doc, i).end == i + |GapText(gap) + [125]|
  {
    hide *;
    var t := ReadSkippingComments(doc, i);
    gap := GapFound(doc, i);
    TokenFound(doc, i);
    KindFound(doc, t.start);
    MatchOne(doc, t.start);
    MatchJoin(doc, i, GapText(gap), [125]);
  }

  lemma SeparatorFound(doc: Bytes, j: nat) returns (after: Gap, mark: Mark)
    requires j <= |doc| && ReadSkippingComments(doc, j).end < |doc|
    requires var next := ReadSkippingComments(doc, j);
             next.kind != ObjectEnd && (next.kind == ArraySeparator || ReadToken(doc, j).kind == Comment)
    ensures Separates(after, mark) && Matches(doc, j, GapText(after))
    ensures Matches(doc, j + |GapText(after)|, MarkText(mark))
    ensures ReadSkippingComments(doc, j).end == j + |GapText(after)| + |MarkText(mark)|
  {
    hide *;
    var next := ReadSkippingComments(doc, j);
    after := GapFound(doc, j);
    TokenFound(doc, j);
    mark := MarkFound(doc, next.start);
    SeparatesIs(after, mark);
  }

  // ----- The language ------------------------------------------------------------------------

  /** A document that begins with a text is parsed as what the text means, up to 1000 levels of
      nesting; deeper ones raise the exception. */
  lemma TextParsed(dr: DoubleReader, t: Document, doc: Bytes, root: Value)
    requires Begins(dr, t, doc)
    ensures Parse(dr, doc, root) ==
            if Levels(t.node) <= 1000 then Done(true, Meaning(dr, t.node), |DocumentText(t)|, []) else StackLimit
  {
    hide *;
    BeginsIs(dr, t, doc);
    ParseIs(dr, doc, root);
    var g, n := GapText(t.before), NodeText(t.node);
    PrefixMatches(doc, g + n);
    MatchHead(doc, 0, g, n);
    ExpectedIs(Meaning(dr, t.node), |g| + |n|, Levels(t.node));
    GapSkipped(doc, 0, t.before);
    ValueFrom(dr, doc, 0, |g|, 1, root);
    NodeRead(dr, t.node, doc, |g|, 1, root);
  }

  lemma BeginsIs(dr: DoubleReader, t: Document, doc: Bytes)
    ensures DocumentText(t) == GapText(t.before) + NodeText(t.node)
    ensures Begins(dr, t, doc) <==>
            && IsGap(t.before) && IsNode(dr, t.node) && DocumentText(t) <= doc
            && Stopped(t.node, doc, |DocumentText(t)|)
  {
    hide IsGap, IsNode, GapText, NodeText, Continues;
  }

  lemma ParseIs(dr: DoubleReader, doc: Bytes, root: Value)
    ensures Parse(dr, doc, root) == ReadValue(dr, doc, 0, 1, root) && STACK_LIMIT == 1000
  {
    hide ReadValue;
  }

  lemma PrefixMatches(doc: Bytes, a: Bytes)
    ensures Matches(doc, 0, a) <==> a <= doc
  {
  }

  /** Whatever is parsed begins with a text. */
  lemma ParsedText(dr: DoubleReader, doc: Bytes, root: Value) returns (t: Document)
    requires Parse(dr, doc, root).Done? && Parse(dr, doc, root).ok
    ensures Begins(dr, t, doc) && Levels(t.node) <= 1000
  {
    hide IsNode, IsGap, Matches, ReadValue, Levels, GapText, NodeText, Continues;
    var g, n := ValueFound(dr, doc, 0, 1, root);
    t := Document(g, n);
    MatchJoin(doc, 0, GapText(g), NodeText(n));
    PrefixMatches(doc, DocumentText(t));
  }

  /** The reader succeeds exactly when a text of at most 1000 levels begins the document, and then
      the value is what that text means. */
  lemma ParseIff(dr: DoubleReader, doc: Bytes, root: Value)
    ensures (Parse(dr, doc, root).Done? && Parse(dr, doc, root).ok) <==>
            exists t :: Begins(dr, t, doc) && Levels(t.node) <= 1000
    ensures forall t :: Begins(dr, t, doc) && Levels(t.node) <= 1000 ==>
              Parse(dr, doc, root) == Done(true, Meaning(dr, t.node), |DocumentText(t)|, [])
  {
    hide *;
    if Parse(dr, doc, root).Done? && Parse(dr, doc, root).ok {
      var t := ParsedText(dr, doc, root);
    }
    forall t | Begins(dr, t, doc) && Levels(t.node) <= 1000
      ensures Parse(dr, doc, root) == Done(true, Meaning(dr, t.node), |DocumentText(t)|, [])
    {
      TextParsed(dr, t, doc, root);
    }
  }
}
