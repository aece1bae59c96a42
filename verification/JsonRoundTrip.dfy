/**
  `Reader::parse` inverts `FastWriter::write`: for every tree without reals and
  with printable strings the parser succeeds and returns the tree, with integers
  in the kind that `decodeNumber` picks, exactly when the tree is at most 1000
  levels deep; a deeper one raises the stack-limit exception.
 */
module JsonRoundTrip {
  import opened JsonValue
  import opened JsonNumber
  import opened JsonString
  import opened JsonGrammar
  import opened JsonWriter

  // ----- What is promised for which trees ------------------------------------------------

  /** Valid UTF-8 that `valueToQuotedStringN` does not damage: see `StringRoundTrip`. */
  ghost predicate PrintableString(signedChar: bool, s: Bytes) {
    exists cps :: AllScalar(cps) && s == Utf8(cps) && (AllPlaned(cps) || !AnyCharRequiresQuoting(signedChar, s))
  }

  /** The members of a `std::map`: every key once, in increasing order. */
  predicate Sorted(ms: seq<Member>) {
    forall j, k :: 0 <= j < k < |ms| ==> LessBytes(ms[j].key, ms[k].key)
  }

  ghost predicate Printable(f: Format, v: Value) {
    match v
    case Real(_) => false
    case Int(i) => MIN_LARGEST_INT <= i <= MAX_LARGEST_INT
    case UInt(u) => u <= MAX_LARGEST_UINT
    case Str(s) => PrintableString(f.signedChar, s)
    case Arr(xs) => forall k :: 0 <= k < |xs| ==> Printable(f, xs[k])
    case Obj(ms) => Sorted(ms) && forall k :: 0 <= k < |ms| ==>
                      PrintableString(f.signedChar, ms[k].key) && Printable(f, ms[k].value)
    case _ => true
  }

  function Max(a: nat, b: nat): nat {
    if a < b then b else a
  }

  /** Levels of nesting; a scalar has one. */
  function Height(v: Value): nat
    decreases v, 0
  {
    match v
    case Arr(xs) => 1 + HeightOfItems(xs, 0)
    case Obj(ms) => 1 + HeightOfMembers(ms, 0)
    case _ => 1
  }

  function HeightOfItems(xs: seq<Value>, k: nat): nat
    requires k <= |xs|
    decreases xs, |xs| - k
  {
    if k == |xs| then 0 else Max(Height(xs[k]), HeightOfItems(xs, k + 1))
  }

  function HeightOfMembers(ms: seq<Member>, k: nat): nat
    requires k <= |ms|
    decreases ms, |ms| - k
  {
    if k == |ms| then 0 else Max(Height(ms[k].value), HeightOfMembers(ms, k + 1))
  }

  /** The tree with every integer in the kind the reader gives it. */
  function Norm(v: Value): Value
    decreases v, 0
  {
    match v
    case Int(i) => ReadBack(i)
    case UInt(u) => ReadBack(u)
    case Arr(xs) => Arr(NormItems(xs, 0))
    case Obj(ms) => Obj(NormMembers(ms, 0))
    case _ => v
  }

  function NormItems(xs: seq<Value>, k: nat): (r: seq<Value>)
    requires k <= |xs|
    ensures |r| == |xs| - k
    decreases xs, |xs| - k
  {
    if k == |xs| then [] else [Norm(xs[k])] + NormItems(xs, k + 1)
  }

  function NormMembers(ms: seq<Member>, k: nat): (r: seq<Member>)
    requires k <= |ms|
    ensures |r| == |ms| - k
    decreases ms, |ms| - k
  {
    if k == |ms| then [] else [Member(ms[k].key, Norm(ms[k].value))] + NormMembers(ms, k + 1)
  }

  // ----- Documents piece by piece ------------------------------------------------------------

  lemma MatchSplit(doc: Bytes, i: nat, a: Bytes, b: Bytes)
    requires Matches(doc, i, a + b)
    ensures Matches(doc, i, a) && Matches(doc, i + |a|, b)
  {
    var d := doc[i..i + |a + b|];
    assert doc[i..i + |a|] == d[..|a|];
    assert doc[i + |a|..i + |a| + |b|] == d[|a|..];
  }

  lemma MatchInside(doc: Bytes, i: nat, a: Bytes)
    requires Matches(doc, i, a)
    ensures i + |a| <= |doc|
  {
  }

  lemma MatchAt(doc: Bytes, i: nat, a: Bytes, k: nat)
    requires Matches(doc, i, a) && k < |a|
    ensures i + k < |doc| && doc[i + k] == a[k]
  {
    assert doc[i..i + |a|][k] == a[k];
  }

  /** Nothing that would continue a number. */
  predicate Stops(doc: Bytes, j: nat) {
    j >= |doc| || (!IsDigit(doc[j]) && doc[j] != 46 && doc[j] != 101 && doc[j] != 69)
  }

  /** A token that starts right here with a character that opens no comment. */
  lemma TokenHere(doc: Bytes, i: nat)
    requires i < |doc| && !IsSpace(doc[i])
    ensures ReadToken(doc, i) == Token(TokenAt(doc, i).0, i, TokenAt(doc, i).1)
    ensures doc[i] != 47 ==> ReadSkippingComments(doc, i) == ReadToken(doc, i)
  {
    assert SkipSpaces(doc, i) == i;
    assert doc[i] != 47 ==> TokenAt(doc, i).0 != Comment;
  }

  /** A punctuation mark that stands right here. */
  lemma MarkHere(doc: Bytes, i: nat, kind: TokenType)
    requires i < |doc|
    requires (kind == ArraySeparator && doc[i] == COMMA) || (kind == ArrayBegin && doc[i] == 91)
             || (kind == ArrayEnd && doc[i] == 93)
          || (kind == ObjectBegin && doc[i] == 123) || (kind == ObjectEnd && doc[i] == 125)
          || (kind == MemberSeparator && doc[i] == 58)
    ensures ReadToken(doc, i) == ReadSkippingComments(doc, i) == Token(kind, i, i + 1)
  {
    TokenHere(doc, i);
  }

  lemma StopsAt(doc: Bytes, j: nat)
    requires j < |doc| && (doc[j] == COMMA || doc[j] == 93 || doc[j] == 125)
    ensures Stops(doc, j)
  {
  }

  lemma SpaceFirst(dr: DoubleReader, doc: Bytes, i: nat, depth: nat, slot: Value)
    requires i < |doc| && IsSpace(doc[i])
    ensures ReadValue(dr, doc, i, depth, slot) == ReadValue(dr, doc, i + 1, depth, slot)
  {
    assert SkipSpaces(doc, i) == SkipSpaces(doc, i + 1);
    assert ReadToken(doc, i) == ReadToken(doc, i + 1);
    assert ReadSkippingComments(doc, i) == ReadSkippingComments(doc, i + 1);
  }

  // ----- Scalars -------------------------------------------------------------------------------

  lemma KeywordBack(doc: Bytes, i: nat, text: Bytes)
    requires text == NULL_TEXT || text == TRUE_TEXT || text == FALSE_TEXT
    requires Matches(doc, i, text)
    ensures ReadSkippingComments(doc, i) ==
            Token(if text == NULL_TEXT then NullToken else if text == TRUE_TEXT then True else False, i, i + |text|)
  {
    hide *;
    KeywordParts(text);
    MatchSplit(doc, i, [text[0]], text[1..]);
    MatchAt(doc, i, [text[0]], 0);
    KeywordHere(doc, i, text[1..]);
  }

  /** The keywords and what is matched behind their first character. */
  lemma KeywordParts(text: Bytes)
    requires text == NULL_TEXT || text == TRUE_TEXT || text == FALSE_TEXT
    ensures text != [] && text == [text[0]] + text[1..] && |text| == 1 + |text[1..]|
    ensures text == NULL_TEXT ==> text[0] == 110 && text[1..] == ULL
    ensures text == TRUE_TEXT ==> text[0] == 116 && text[1..] == RUE && text != NULL_TEXT
    ensures text == FALSE_TEXT ==> text[0] == 102 && text[1..] == ALSE && text != NULL_TEXT && text != TRUE_TEXT
  {
    assert NULL_TEXT[0] != TRUE_TEXT[0] && NULL_TEXT[0] != FALSE_TEXT[0] && TRUE_TEXT[0] != FALSE_TEXT[0];
  }

  lemma KeywordHere(doc: Bytes, i: nat, tail: Bytes)
    requires i < |doc| && Matches(doc, i + 1, tail)
    requires (doc[i] == 110 && tail == ULL) || (doc[i] == 116 && tail == RUE) || (doc[i] == 102 && tail == ALSE)
    ensures ReadSkippingComments(doc, i) ==
            Token(if doc[i] == 110 then NullToken else if doc[i] == 116 then True else False, i, i + 1 + |tail|)
  {
    hide Matches;
    TokenHere(doc, i);
    hide ReadSkippingComments, ReadToken, ScanString, CommentEnd, NumberEnd;
  }

  /** The digit loop stops at the first character that is no digit. */
  lemma {:induction false} DigitsEnd(doc: Bytes, i: nat, j: nat)
    requires i <= j <= |doc| && (forall k :: i <= k < j ==> IsDigit(doc[k]))
    requires j == |doc| || !IsDigit(doc[j])
    ensures SkipDigits(doc, i) == j
    decreases j - i
  {
    if i < j {
      DigitsEnd(doc, i + 1, j);
    }
  }

  lemma IntegerBack(doc: Bytes, i: nat, n: int)
    requires Matches(doc, i, IntText(n)) && Stops(doc, i + |IntText(n)|)
    ensures ReadSkippingComments(doc, i) == Token(Number, i, i + |IntText(n)|)
    ensures doc[i..i + |IntText(n)|] == IntText(n)
  {
    hide *;
    var j := i + |IntText(n)|;
    MatchInside(doc, i, IntText(n));
    IntTextAt(n);
    MatchAt(doc, i, IntText(n), 0);
    forall k | i + 1 <= k < j ensures IsDigit(doc[k]) {
      MatchAt(doc, i, IntText(n), k - i);
    }
    NumberEnds(doc, i + 1, j);
    NumberHere(doc, i);
    assert doc[i..j] == IntText(n) by { MatchIs(doc, i, IntText(n)); }
  }

  lemma MatchIs(doc: Bytes, i: nat, a: Bytes)
    ensures Matches(doc, i, a) <==> i + |a| <= |doc| && doc[i..i + |a|] == a
  {
  }

  /** The characters of a printed integer. */
  lemma IntTextAt(n: int)
    ensures IntText(n) != [] && (IsDigit(IntText(n)[0]) || IntText(n)[0] == MINUS)
    ensures forall k :: 1 <= k < |IntText(n)| ==> IsDigit(IntText(n)[k])
  {
    hide IsDigit, Digits, Decimal;
    var ds := Digits(if n < 0 then -n else n);
    assert forall k :: 0 <= k < |ds| ==> IsDigit(ds[k]);
  }

  lemma NumberEnds(doc: Bytes, i: nat, j: nat)
    requires i <= j <= |doc| && (forall k :: i <= k < j ==> IsDigit(doc[k])) && Stops(doc, j)
    ensures NumberEnd(doc, i) == j
  {
    DigitsEnd(doc, i, j);
    hide SkipDigits, IsDigit;
  }

  lemma NumberHere(doc: Bytes, i: nat)
    requires i < |doc| && (IsDigit(doc[i]) || doc[i] == MINUS)
    ensures ReadSkippingComments(doc, i) == Token(Number, i, NumberEnd(doc, i + 1))
  {
    hide NumberEnd;
    TokenHere(doc, i);
    hide ReadSkippingComments, ReadToken, ScanString, CommentEnd;
  }

  /** What `StringRoundTrip` says about a printable string. */
  lemma PrintableDecodes(signedChar: bool, s: Bytes)
    requires PrintableString(signedChar, s)
    ensures var q := Quoted(signedChar, s);
            |q| >= 2 && q[0] == QUOTE && DecodeBody(q[1..|q| - 1]) == Decoded.Text(s)
  {
    var cps :| AllScalar(cps) && s == Utf8(cps) && (AllPlaned(cps) || !AnyCharRequiresQuoting(signedChar, s));
    StringRoundTrip(signedChar, cps);
  }

  lemma StringBack(signedChar: bool, doc: Bytes, i: nat, s: Bytes)
    requires PrintableString(signedChar, s) && Matches(doc, i, Quoted(signedChar, s))
    ensures var q := Quoted(signedChar, s);
            && |q| >= 2
            && ReadSkippingComments(doc, i) == Token(String, i, i + |q|)
            && DecodeBody(doc[i + 1..i + |q| - 1]) == Decoded.Text(s)
  {
    hide *;
    PrintableDecodes(signedChar, s);
    var q := Quoted(signedChar, s);
    MatchInside(doc, i, q);
    TokenEndsAtQuote(signedChar, s, doc[i + |q|..]);
    MatchAt(doc, i, q, 0);
    MatchInner(doc, i, q);
    StringHere(doc, i, |q| - 1);
  }

  lemma StringHere(doc: Bytes, i: nat, n: nat)
    requires i < |doc| && doc[i] == QUOTE && ScanString(doc[i + 1..]) == (true, n)
    ensures ReadSkippingComments(doc, i) == Token(String, i, i + 1 + n)
  {
    hide ScanString;
    TokenHere(doc, i);
  }

  lemma MatchInner(doc: Bytes, i: nat, q: Bytes)
    requires Matches(doc, i, q) && |q| >= 2
    ensures doc[i + 1..] == (q + doc[i + |q|..])[1..]
    ensures doc[i + 1..i + |q| - 1] == q[1..|q| - 1]
  {
    var d := doc[i..i + |q|];
    var n := |q| - 1;
    assert forall k :: 1 <= k < n ==> d[k] == doc[i + k];
    assert doc[i + 1..i + n] == d[1..n];
    assert doc[i..] == d + doc[i + |q|..];
    assert doc[i + 1..] == doc[i..][1..];
  }

  // ----- Trees ----------------------------------------------------------------------------------

  /** The outcome of reading a printed value that leaves the cursor at `end`, where
      the deepest node needs `top` stack entries. */
  function Expected(v: Value, end: nat, top: int): Outcome {
    if top <= STACK_LIMIT then Done(true, v, end, []) else StackLimit
  }

  lemma HeightPositive(v: Value)
    ensures Height(v) >= 1
  {
  }

  lemma {:induction false} ValueBack(dr: DoubleReader, f: Format, v: Value, doc: Bytes, i: nat, depth: nat, slot: Value)
    requires Printable(f, v) && Matches(doc, i, ValueText(f, v)) && Stops(doc, i + |ValueText(f, v)|)
    ensures ReadValue(dr, doc, i, depth, slot) == Expected(Norm(v), i + |ValueText(f, v)|, depth + Height(v) - 1)
    decreases v, 0
  {
    hide *;
    MatchInside(doc, i, ValueText(f, v));
    HeightPositive(v);
    ValueIs(f, v);
    ExpectedIs(Norm(v), i + |ValueText(f, v)|, depth + Height(v) - 1);
    if depth > STACK_LIMIT {
      TooDeep(dr, doc, i, depth, slot);
    } else if v.Arr? {
      ArrayBack(dr, f, v.items, doc, i, depth, slot);
    } else if v.Obj? {
      ObjectBack(dr, f, v.members, doc, i, depth, slot);
    } else {
      ScalarBack(dr, f, v, doc, i, depth, slot);
    }
  }

  /** The functions over values, unfolded once. */
  lemma ValueIs(f: Format, v: Value)
    ensures v.Arr? ==> ValueText(f, v) == [91] + ItemsFrom(f, v.items, 0) + [93]
    ensures v.Arr? ==> Norm(v) == Arr(NormItems(v.items, 0)) && Height(v) == 1 + HeightOfItems(v.items, 0)
    ensures v.Obj? ==> ValueText(f, v) == [123] + MembersFrom(f, v.members, 0) + [125]
    ensures v.Obj? ==> Norm(v) == Obj(NormMembers(v.members, 0)) && Height(v) == 1 + HeightOfMembers(v.members, 0)
    ensures !v.Arr? && !v.Obj? ==> Height(v) == 1
    ensures v.Arr? && Printable(f, v) ==> forall k :: 0 <= k < |v.items| ==> Printable(f, v.items[k])
    ensures v.Obj? && Printable(f, v) ==> Sorted(v.members) && forall k :: 0 <= k < |v.members| ==>
              PrintableString(f.signedChar, v.members[k].key) && Printable(f, v.members[k].value)
  {
    hide PrintableString, Sorted, ItemsFrom, MembersFrom, NormItems, NormMembers, HeightOfItems, HeightOfMembers,
         Quoted, IntText, Digits;
  }

  lemma TooDeep(dr: DoubleReader, doc: Bytes, i: nat, depth: nat, slot: Value)
    requires i <= |doc| && depth > STACK_LIMIT
    ensures ReadValue(dr, doc, i, depth, slot) == StackLimit
  {
  }

  lemma ScalarBack(dr: DoubleReader, f: Format, v: Value, doc: Bytes, i: nat, depth: nat, slot: Value)
    requires Printable(f, v) && !v.Arr? && !v.Obj? && depth <= STACK_LIMIT
    requires Matches(doc, i, ValueText(f, v)) && Stops(doc, i + |ValueText(f, v)|)
    ensures ReadValue(dr, doc, i, depth, slot) == Done(true, Norm(v), i + |ValueText(f, v)|, [])
  {
    hide *;
    MatchInside(doc, i, ValueText(f, v));
    ScalarIs(f, v);
    ScalarUnfold(dr, doc, i, depth, slot);
    match v
    case Null => KeywordBack(doc, i, NULL_TEXT);
    case Bool(b) => KeywordBack(doc, i, if b then TRUE_TEXT else FALSE_TEXT);
    case Int(n) => IntegerOutcome(dr, doc, i, n, slot);
    case UInt(n) => IntegerOutcome(dr, doc, i, n, slot);
    case Str(s) => StringOutcomeBack(f.signedChar, doc, i, s, slot);
  }

  /** The functions over scalars, unfolded. */
  lemma ScalarIs(f: Format, v: Value)
    ensures v.Null? ==> ValueText(f, v) == NULL_TEXT && Norm(v) == v
    ensures v.Bool? ==> ValueText(f, v) == (if v.b then TRUE_TEXT else FALSE_TEXT) && Norm(v) == v
    ensures NULL_TEXT != TRUE_TEXT && NULL_TEXT != FALSE_TEXT && TRUE_TEXT != FALSE_TEXT
    ensures v.Int? ==> ValueText(f, v) == IntText(v.i) && Norm(v) == ReadBack(v.i)
    ensures v.UInt? ==> ValueText(f, v) == IntText(v.u) && Norm(v) == ReadBack(v.u)
    ensures v.Str? ==> ValueText(f, v) == Quoted(f.signedChar, v.s) && Norm(v) == v
    ensures Printable(f, v) ==> !v.Real?
    ensures v.Int? && Printable(f, v) ==> MIN_LARGEST_INT <= v.i <= MAX_LARGEST_UINT
    ensures v.UInt? && Printable(f, v) ==> MIN_LARGEST_INT <= v.u <= MAX_LARGEST_UINT
    ensures v.Str? && Printable(f, v) ==> PrintableString(f.signedChar, v.s)
  {
    hide Quoted, Digits, PrintableString, ReadBack, ItemsFrom, MembersFrom, NormItems, NormMembers;
    assert NULL_TEXT[0] != TRUE_TEXT[0] && NULL_TEXT[0] != FALSE_TEXT[0] && TRUE_TEXT[0] != FALSE_TEXT[0];
  }

  /** `readValue` on a token that is a value by itself. */
  lemma ScalarUnfold(dr: DoubleReader, doc: Bytes, i: nat, depth: nat, slot: Value)
    requires i <= |doc| && depth <= STACK_LIMIT
    ensures var t := ReadSkippingComments(doc, i);
            && (t.kind == Number ==> ReadValue(dr, doc, i, depth, slot) == NumberOutcome(dr, doc, t, slot))
            && (t.kind == String ==> ReadValue(dr, doc, i, depth, slot) == StringOutcome(doc, t, slot))
            && (t.kind == True ==> ReadValue(dr, doc, i, depth, slot) == Done(true, Bool(true), t.end, []))
            && (t.kind == False ==> ReadValue(dr, doc, i, depth, slot) == Done(true, Bool(false), t.end, []))
            && (t.kind == NullToken ==> ReadValue(dr, doc, i, depth, slot) == Done(true, Null, t.end, []))
  {
    hide ReadSkippingComments, ReadToken, ReadItems, ReadMembers, SkipSpaces, NumberOutcome, StringOutcome;
  }

  lemma IntegerOutcome(dr: DoubleReader, doc: Bytes, i: nat, n: int, slot: Value)
    requires Matches(doc, i, IntText(n)) && Stops(doc, i + |IntText(n)|)
    requires MIN_LARGEST_INT <= n <= MAX_LARGEST_UINT
    ensures var t := ReadSkippingComments(doc, i);
            t.kind == Number && NumberOutcome(dr, doc, t, slot) == Done(true, ReadBack(n), i + |IntText(n)|, [])
  {
    hide Matches, Stops, IntText, ReadBack, NumberOf, ReadSkippingComments;
    MatchInside(doc, i, IntText(n));
    IntegerBack(doc, i, n);
    IntegerRoundTrip(n);
  }

  lemma StringOutcomeBack(signedChar: bool, doc: Bytes, i: nat, s: Bytes, slot: Value)
    requires PrintableString(signedChar, s) && Matches(doc, i, Quoted(signedChar, s))
    ensures var t := ReadSkippingComments(doc, i);
            t.kind == String && StringOutcome(doc, t, slot) == Done(true, Str(s), i + |Quoted(signedChar, s)|, [])
  {
    hide Matches, Quoted, DecodeBody, ReadSkippingComments, PrintableString;
    MatchInside(doc, i, Quoted(signedChar, s));
    StringBack(signedChar, doc, i, s);
  }

  /** The first character of a printed value. */
  lemma TextFirst(f: Format, v: Value)
    requires Printable(f, v)
    ensures ValueText(f, v) != []
    ensures var c := ValueText(f, v)[0]; !IsSpace(c) && c != 93 && c != 47
  {
    match v
    case Str(s) => PrintableDecodes(f.signedChar, s);
    case Int(n) => if n >= 0 { assert IsDigit(Digits(n)[0]); }
    case UInt(n) => assert IsDigit(Digits(n)[0]);
    case _ =>
  }

  lemma ArrayBack(dr: DoubleReader, f: Format, xs: seq<Value>, doc: Bytes, i: nat, depth: nat, slot: Value)
    requires (forall k :: 0 <= k < |xs| ==> Printable(f, xs[k])) && depth <= STACK_LIMIT
    requires Matches(doc, i, [91] + ItemsFrom(f, xs, 0) + [93])
    ensures ReadValue(dr, doc, i, depth, slot) ==
            Expected(Arr(NormItems(xs, 0)), i + |ItemsFrom(f, xs, 0)| + 2, depth + HeightOfItems(xs, 0))
    decreases xs, |xs| + 1
  {
    hide *;
    MatchInside(doc, i, [91] + ItemsFrom(f, xs, 0) + [93]);
    ArrayUnfold(dr, doc, i, depth, slot);
    ArraySplit(f, xs, doc, i);
    ItemsEnd(f, xs);
    ExpectedIs(Arr(NormItems(xs, 0)), i + 2, depth);
    if xs != [] {
      ItemsFirst(f, xs);
      ItemsBack(dr, f, xs, 0, doc, i + 1, depth, []);
      assert [] + NormItems(xs, 0) == NormItems(xs, 0);
    }
  }

  /** The document at the start of a printed array. */
  lemma ArraySplit(f: Format, xs: seq<Value>, doc: Bytes, i: nat)
    requires forall k :: 0 <= k < |xs| ==> Printable(f, xs[k])
    requires Matches(doc, i, [91] + ItemsFrom(f, xs, 0) + [93])
    ensures i + 1 < |doc| && ReadSkippingComments(doc, i) == Token(ArrayBegin, i, i + 1)
    ensures SkipSpaces(doc, i + 1) == i + 1
    ensures xs == [] <==> At(doc, i + 1, 93)
    ensures xs == [] ==> ReadToken(doc, i + 1) == Token(ArrayEnd, i + 1, i + 2)
    ensures xs != [] ==> Matches(doc, i + 1, ValueText(f, xs[0]) + ItemsFrom(f, xs, 1) + [93])
  {
    hide *;
    var body := ItemsFrom(f, xs, 0) + [93];
    assert [91] + ItemsFrom(f, xs, 0) + [93] == [91] + body;
    ItemsEnd(f, xs);
    if xs != [] {
      ItemsFirst(f, xs);
      TextFirst(f, xs[0]);
    }
    MatchSplit(doc, i, [91], body);
    MatchAt(doc, i, [91], 0);
    MarkHere(doc, i, ArrayBegin);
    MatchAt(doc, i + 1, body, 0);
    assert xs != [] ==> body[0] == ValueText(f, xs[0])[0];
    NoSpace(doc, i + 1);
    AtIs(doc, i + 1, 93);
    if xs == [] {
      MarkHere(doc, i + 1, ArrayEnd);
    }
  }

  lemma AtIs(doc: Bytes, i: nat, b: Byte)
    ensures At(doc, i, b) <==> i < |doc| && doc[i] == b
  {
  }

  lemma ItemsEnd(f: Format, xs: seq<Value>)
    ensures NormItems(xs, |xs|) == [] && HeightOfItems(xs, |xs|) == 0 && ItemsFrom(f, xs, |xs|) == []
  {
  }

  lemma ItemsFirst(f: Format, xs: seq<Value>)
    requires xs != []
    ensures ItemsFrom(f, xs, 0) == ValueText(f, xs[0]) + ItemsFrom(f, xs, 1)
  {
    hide ValueText;
  }

  lemma NoSpace(doc: Bytes, i: nat)
    requires i < |doc| && (!IsSpace(doc[i]) || doc[i] == 93)
    ensures SkipSpaces(doc, i) == i
  {
  }

  lemma ArrayUnfold(dr: DoubleReader, doc: Bytes, i: nat, depth: nat, slot: Value)
    requires i <= |doc| && depth <= STACK_LIMIT
    ensures var t := ReadSkippingComments(doc, i);
            t.kind == ArrayBegin ==>
              ReadValue(dr, doc, i, depth, slot) == (
                var s := SkipSpaces(doc, t.end);
                if At(doc, s, 93) then Done(true, Arr([]), ReadToken(doc, s).end, [])
                else ReadItems(dr, doc, s, depth, []))
  {
    hide ReadSkippingComments, ReadToken, ReadItems, SkipSpaces;
  }

  /** The loop of `readArray` on the printed items from `k` on. */
  lemma {:induction false} ItemsBack(dr: DoubleReader, f: Format, xs: seq<Value>, k: nat, doc: Bytes, i: nat,
                                     depth: nat, acc: seq<Value>)
    requires k < |xs| && forall j :: 0 <= j < |xs| ==> Printable(f, xs[j])
    requires Matches(doc, i, ValueText(f, xs[k]) + ItemsFrom(f, xs, k + 1) + [93])
    ensures ReadItems(dr, doc, i, depth, acc) ==
            Expected(Arr(acc + NormItems(xs, k)), i + |ValueText(f, xs[k])| + |ItemsFrom(f, xs, k + 1)| + 1,
                     depth + HeightOfItems(xs, k))
    decreases xs, |xs| - k
  {
    hide *;
    MatchInside(doc, i, ValueText(f, xs[k]) + ItemsFrom(f, xs, k + 1) + [93]);
    ItemsAre(f, xs, k);
    ItemsUnfold(dr, doc, i, depth, acc);
    var j := i + |ValueText(f, xs[k])|;
    ItemsSplit(f, xs, k, doc, i);
    ValueBack(dr, f, xs[k], doc, i, depth + 1, Null);
    ExpectedIs(Norm(xs[k]), j, depth + Height(xs[k]));
    var acc' := acc + [Norm(xs[k])];
    ExpectedIs(Arr(acc + NormItems(xs, k)), j + |ItemsFrom(f, xs, k + 1)| + 1, depth + HeightOfItems(xs, k));
    MaxIs(Height(xs[k]), HeightOfItems(xs, k + 1));
    if k + 1 < |xs| && depth + Height(xs[k]) <= STACK_LIMIT {
      ItemsBack(dr, f, xs, k + 1, doc, j + 1, depth, acc');
      assert acc' + NormItems(xs, k + 1) == acc + NormItems(xs, k);
      ExpectedIs(Arr(acc + NormItems(xs, k)), j + |ItemsFrom(f, xs, k + 1)| + 1, depth + HeightOfItems(xs, k + 1));
    } else if k + 1 == |xs| {
      assert acc' == acc + NormItems(xs, k);
    }
  }

  lemma ExpectedIs(v: Value, end: nat, top: int)
    ensures Expected(v, end, top) == if top <= STACK_LIMIT then Done(true, v, end, []) else StackLimit
  {
  }

  lemma MaxIs(a: nat, b: nat)
    ensures Max(a, b) == if a < b then b else a
  {
  }

  /** The document around one printed item. */
  lemma ItemsSplit(f: Format, xs: seq<Value>, k: nat, doc: Bytes, i: nat)
    requires k < |xs|
    requires Matches(doc, i, ValueText(f, xs[k]) + ItemsFrom(f, xs, k + 1) + [93])
    ensures var j := i + |ValueText(f, xs[k])|;
            && Matches(doc, i, ValueText(f, xs[k])) && Stops(doc, j) && j < |doc|
            && ReadSkippingComments(doc, j) == Token(if k + 1 == |xs| then ArrayEnd else ArraySeparator, j, j + 1)
            && (k + 1 < |xs| ==> Matches(doc, j + 1, ValueText(f, xs[k + 1]) + ItemsFrom(f, xs, k + 2) + [93]))
  {
    hide *;
    ItemsAre(f, xs, k);
    var text, more := ValueText(f, xs[k]), ItemsFrom(f, xs, k + 1) + [93];
    Regroup3(text, ItemsFrom(f, xs, k + 1), [93]);
    MatchSplit(doc, i, text, more);
    MoreItems(f, xs, k, doc, i + |text|);
  }

  /** The mark behind a printed item. */
  lemma MoreItems(f: Format, xs: seq<Value>, k: nat, doc: Bytes, j: nat)
    requires k < |xs| && Matches(doc, j, ItemsFrom(f, xs, k + 1) + [93])
    ensures j < |doc| && Stops(doc, j)
    ensures ReadSkippingComments(doc, j) == Token(if k + 1 == |xs| then ArrayEnd else ArraySeparator, j, j + 1)
    ensures k + 1 < |xs| ==> Matches(doc, j + 1, ValueText(f, xs[k + 1]) + ItemsFrom(f, xs, k + 2) + [93])
  {
    hide *;
    ItemsAre(f, xs, k);
    MatchAt(doc, j, ItemsFrom(f, xs, k + 1) + [93], 0);
    MarkHere(doc, j, if k + 1 == |xs| then ArrayEnd else ArraySeparator);
    StopsAt(doc, j);
    if k + 1 < |xs| {
      var value, rest := ValueText(f, xs[k + 1]), ItemsFrom(f, xs, k + 2);
      assert [COMMA] + value + rest + [93] == [COMMA] + (value + rest + [93]);
      MatchSplit(doc, j, [COMMA], value + rest + [93]);
    }
  }

  /** The functions over items, unfolded once. */
  lemma ItemsAre(f: Format, xs: seq<Value>, k: nat)
    requires k < |xs|
    ensures NormItems(xs, k) == [Norm(xs[k])] + NormItems(xs, k + 1)
    ensures HeightOfItems(xs, k) == Max(Height(xs[k]), HeightOfItems(xs, k + 1))
    ensures k + 1 == |xs| ==>
            ItemsFrom(f, xs, k + 1) == [] && NormItems(xs, k + 1) == [] && HeightOfItems(xs, k + 1) == 0
    ensures k + 1 < |xs| ==> ItemsFrom(f, xs, k + 1) == [COMMA] + ValueText(f, xs[k + 1]) + ItemsFrom(f, xs, k + 2)
  {
    hide ValueText, Norm, Height;
  }

  lemma ObjectBack(dr: DoubleReader, f: Format, ms: seq<Member>, doc: Bytes, i: nat, depth: nat, slot: Value)
    requires Sorted(ms) && depth <= STACK_LIMIT
    requires forall k :: 0 <= k < |ms| ==> PrintableString(f.signedChar, ms[k].key) && Printable(f, ms[k].value)
    requires Matches(doc, i, [123] + MembersFrom(f, ms, 0) + [125])
    ensures ReadValue(dr, doc, i, depth, slot) ==
            Expected(Obj(NormMembers(ms, 0)), i + |MembersFrom(f, ms, 0)| + 2, depth + HeightOfMembers(ms, 0))
    decreases ms, |ms| + 1
  {
    hide *;
    MatchInside(doc, i, [123] + MembersFrom(f, ms, 0) + [125]);
    ObjectUnfold(dr, doc, i, depth, slot);
    ObjectSplit(f, ms, doc, i);
    MembersEnd(f, ms);
    ExpectedIs(Obj(NormMembers(ms, 0)), i + 2, depth);
    if ms == [] {
      MembersUnfold(dr, doc, i + 1, depth, [], []);
    } else {
      MembersFirst(f, ms);
      MembersBack(dr, f, ms, 0, doc, i + 1, depth, [], []);
      assert [] + NormMembers(ms, 0) == NormMembers(ms, 0);
    }
  }

  /** The document at the start of a printed object. */
  lemma ObjectSplit(f: Format, ms: seq<Member>, doc: Bytes, i: nat)
    requires Matches(doc, i, [123] + MembersFrom(f, ms, 0) + [125])
    ensures i + 1 < |doc| && ReadSkippingComments(doc, i) == Token(ObjectBegin, i, i + 1)
    ensures ms == [] ==> ReadSkippingComments(doc, i + 1) == Token(ObjectEnd, i + 1, i + 2)
    ensures ms != [] ==> Matches(doc, i + 1, MemberText(f, ms, 0))
  {
    hide *;
    var body := MembersFrom(f, ms, 0) + [125];
    assert [123] + MembersFrom(f, ms, 0) + [125] == [123] + body;
    MembersEnd(f, ms);
    if ms != [] { MembersFirst(f, ms); }
    MatchSplit(doc, i, [123], body);
    MatchAt(doc, i, [123], 0);
    MarkHere(doc, i, ObjectBegin);
    MatchAt(doc, i + 1, body, 0);
    if ms == [] {
      MarkHere(doc, i + 1, ObjectEnd);
    }
  }

  lemma ObjectUnfold(dr: DoubleReader, doc: Bytes, i: nat, depth: nat, slot: Value)
    requires i <= |doc| && depth <= STACK_LIMIT
    ensures var t := ReadSkippingComments(doc, i);
            t.kind == ObjectBegin ==> ReadValue(dr, doc, i, depth, slot) == ReadMembers(dr, doc, t.end, depth, [], [])
  {
    hide ReadSkippingComments, ReadToken, ReadMembers, SkipSpaces;
  }

  lemma MembersEnd(f: Format, ms: seq<Member>)
    ensures NormMembers(ms, |ms|) == [] && HeightOfMembers(ms, |ms|) == 0 && MembersFrom(f, ms, |ms|) == []
  {
  }

  lemma MembersFirst(f: Format, ms: seq<Member>)
    requires ms != []
    ensures MembersFrom(f, ms, 0) + [125] == MemberText(f, ms, 0)
  {
    hide ValueText, Quoted, Colon;
  }

  /** The printed members from `k` on, without a leading comma, and the brace. */
  function MemberText(f: Format, ms: seq<Member>, k: nat): Bytes
    requires k < |ms|
  {
    Quoted(f.signedChar, ms[k].key) + (Colon(f) + (ValueText(f, ms[k].value) + (MembersFrom(f, ms, k + 1) + [125])))
  }

  /** A new greatest key goes to the end. */
  lemma {:induction false} PutLast(ms: seq<Member>, key: Bytes, v: Value)
    requires forall j :: 0 <= j < |ms| ==> LessBytes(ms[j].key, key)
    ensures Put(ms, key, v) == ms + [Member(key, v)]
    ensures Lookup(ms, key) == Null
  {
    if ms != [] {
      BytesTrichotomy(ms[0].key, key);
      PutLast(ms[1..], key, v);
      assert ms == [ms[0]] + ms[1..];
    }
  }

  /** Reading the colon and the value of a printed member. */
  lemma ColonBack(dr: DoubleReader, f: Format, v: Value, doc: Bytes, i: nat, more: Bytes, depth: nat, slot: Value)
    requires Printable(f, v) && Matches(doc, i, Colon(f) + (ValueText(f, v) + more))
    requires more != [] && (more[0] == COMMA || more[0] == 125)
    ensures var j := i + |Colon(f)| + |ValueText(f, v)|;
            && ReadToken(doc, i) == Token(MemberSeparator, i, i + 1)
            && ReadValue(dr, doc, i + 1, depth, slot) == Expected(Norm(v), j, depth + Height(v) - 1)
            && Matches(doc, j, more)
    decreases v, 1
  {
    hide *;
    var text, colon := ValueText(f, v), Colon(f);
    ColonIs(f);
    MatchSplit(doc, i, colon, text + more);
    MatchSplit(doc, i + |colon|, text, more);
    MatchAt(doc, i, colon, 0);
    MarkHere(doc, i, MemberSeparator);
    MatchAt(doc, i + |colon| + |text|, more, 0);
    StopsAt(doc, i + |colon| + |text|);
    ValueBack(dr, f, v, doc, i + |colon|, depth, slot);
    if f.yaml {
      MatchAt(doc, i, colon, 1);
      SpaceFirst(dr, doc, i + 1, depth, slot);
    }
  }

  lemma ColonIs(f: Format)
    ensures Colon(f) == (if f.yaml then [58, 32] else [58]) && IsSpace(32)
  {
  }

  /** The loop of `readObject` on the printed members from `k` on. */
  lemma {:induction false} MembersBack(dr: DoubleReader, f: Format, ms: seq<Member>, k: nat, doc: Bytes, i: nat,
                                       depth: nat,
                                       acc: seq<Member>, name: Bytes)
    requires k < |ms| && Sorted(ms)
    requires forall j :: 0 <= j < |ms| ==> PrintableString(f.signedChar, ms[j].key) && Printable(f, ms[j].value)
    requires Matches(doc, i, MemberText(f, ms, k))
    requires |acc| == k && forall j :: 0 <= j < k ==> acc[j].key == ms[j].key
    ensures ReadMembers(dr, doc, i, depth, acc, name) ==
            Expected(Obj(acc + NormMembers(ms, k)), i + |MemberText(f, ms, k)|, depth + HeightOfMembers(ms, k))
    decreases ms, |ms| - k
  {
    hide *;
    MatchInside(doc, i, MemberText(f, ms, k));
    MembersAre(f, ms, k);
    MembersUnfold(dr, doc, i, depth, acc, name);
    var m := ms[k];
    var c, j := MemberRead(dr, f, ms, k, doc, i, depth, acc);
    ExpectedIs(Obj(acc + NormMembers(ms, k)), i + |MemberText(f, ms, k)|, depth + HeightOfMembers(ms, k));
    MaxIs(Height(m.value), HeightOfMembers(ms, k + 1));
    var acc' := acc + [Member(m.key, Norm(m.value))];
    if k + 1 < |ms| && depth + Height(m.value) <= STACK_LIMIT {
      MembersBack(dr, f, ms, k + 1, doc, j + 1, depth, acc', m.key);
      assert acc' + NormMembers(ms, k + 1) == acc + NormMembers(ms, k);
      ExpectedIs(Obj(acc + NormMembers(ms, k)), i + |MemberText(f, ms, k)|, depth + HeightOfMembers(ms, k + 1));
    } else if k + 1 == |ms| {
      assert acc' == acc + NormMembers(ms, k);
    }
  }

  /** Reading one printed member, up to the mark behind it at `j`. */
  lemma MemberRead(dr: DoubleReader, f: Format, ms: seq<Member>, k: nat, doc: Bytes, i: nat, depth: nat,
                   acc: seq<Member>)
    returns (c: nat, j: nat)
    requires k < |ms| && Sorted(ms)
    requires PrintableString(f.signedChar, ms[k].key) && Printable(f, ms[k].value)
    requires Matches(doc, i, MemberText(f, ms, k))
    requires |acc| == k && forall j :: 0 <= j < k ==> acc[j].key == ms[j].key
    ensures i + 2 <= c < j < |doc|
    ensures k + 1 == |ms| ==> j + 1 == i + |MemberText(f, ms, k)|
    ensures k + 1 < |ms| ==> j + 1 + |MemberText(f, ms, k + 1)| == i + |MemberText(f, ms, k)|
    ensures k + 1 < |ms| ==> Matches(doc, j + 1, MemberText(f, ms, k + 1))
    ensures ReadSkippingComments(doc, i) == Token(String, i, c) && ReadToken(doc, c) == Token(MemberSeparator, c, c + 1)
    ensures DecodeBody(doc[i + 1..c - 1]) == Decoded.Text(ms[k].key)
    ensures MemberOutcome(dr, doc, c + 1, depth, acc, ms[k].key) ==
            if depth + Height(ms[k].value) > STACK_LIMIT then StackLimit
            else if k + 1 == |ms| then Done(true, Obj(acc + [Member(ms[k].key, Norm(ms[k].value))]), j + 1, [])
            else ReadMembers(dr, doc, j + 1, depth, acc + [Member(ms[k].key, Norm(ms[k].value))], ms[k].key)
    decreases ms, |ms| - k, 0
  {
    hide *;
    var m := ms[k];
    MemberIs(f, ms, k);
    SortedBelow(ms, k, acc);
    var key, text, more := Quoted(f.signedChar, m.key), ValueText(f, m.value), MembersFrom(f, ms, k + 1) + [125];
    MatchSplit(doc, i, key, Colon(f) + (text + more));
    StringBack(f.signedChar, doc, i, m.key);
    c := i + |key|;
    MembersAre(f, ms, k);
    ColonIs(f);
    ColonBack(dr, f, m.value, doc, c, more, depth + 1, Null);
    PutLast(acc, m.key, Norm(m.value));
    j := c + |Colon(f)| + |text|;
    MoreMembers(f, ms, k, doc, j);
    MemberOutcomeIs(dr, doc, c + 1, depth, acc, m.key);
    ExpectedIs(Norm(m.value), j, depth + Height(m.value));
  }

  /** The mark behind a printed member. */
  lemma MoreMembers(f: Format, ms: seq<Member>, k: nat, doc: Bytes, j: nat)
    requires k < |ms| && Matches(doc, j, MembersFrom(f, ms, k + 1) + [125])
    ensures j < |doc| && ReadToken(doc, j) == Token(if k + 1 == |ms| then ObjectEnd else ArraySeparator, j, j + 1)
    ensures k + 1 < |ms| ==> Matches(doc, j + 1, MemberText(f, ms, k + 1))
  {
    hide *;
    MembersAre(f, ms, k);
    MatchAt(doc, j, MembersFrom(f, ms, k + 1) + [125], 0);
    MarkHere(doc, j, if k + 1 == |ms| then ObjectEnd else ArraySeparator);
    if k + 1 < |ms| {
      MatchSplit(doc, j, [COMMA], MemberText(f, ms, k + 1));
    }
  }

  lemma SortedBelow(ms: seq<Member>, k: nat, acc: seq<Member>)
    requires Sorted(ms) && k < |ms| && |acc| == k && forall j :: 0 <= j < k ==> acc[j].key == ms[j].key
    ensures forall j :: 0 <= j < k ==> LessBytes(acc[j].key, ms[k].key)
  {
  }

  lemma MemberIs(f: Format, ms: seq<Member>, k: nat)
    requires k < |ms|
    ensures MemberText(f, ms, k) ==
            Quoted(f.signedChar, ms[k].key)
              + (Colon(f) + (ValueText(f, ms[k].value) + (MembersFrom(f, ms, k + 1) + [125])))
  {
  }

  /** The end of a turn of `readObject` when the value succeeded. */
  lemma MemberOutcomeIs(dr: DoubleReader, doc: Bytes, i: nat, depth: nat, members: seq<Member>, key: Bytes)
    requires i <= |doc|
    ensures var v := ReadValue(dr, doc, i, depth + 1, Lookup(members, key));
            && (v.StackLimit? ==> MemberOutcome(dr, doc, i, depth, members, key) == StackLimit)
            && (v.Done? && v.ok ==>
                  var comma := ReadToken(doc, v.end);
                  && (comma.kind == ObjectEnd ==>
                        MemberOutcome(dr, doc, i, depth, members, key) ==
                          Done(true, Obj(Put(members, key, v.value)), comma.end, []))
                  && (comma.kind == ArraySeparator ==>
                        MemberOutcome(dr, doc, i, depth, members, key) ==
                        ReadMembers(dr, doc, comma.end, depth, Put(members, key, v.value), key)))
  {
    hide ReadValue, ReadToken, ReadMembers, Put, Lookup, Recover, ReadSkippingComments;
  }

  /** The functions over members, unfolded once. */
  lemma MembersAre(f: Format, ms: seq<Member>, k: nat)
    requires k < |ms|
    ensures NormMembers(ms, k) == [Member(ms[k].key, Norm(ms[k].value))] + NormMembers(ms, k + 1)
    ensures HeightOfMembers(ms, k) == Max(Height(ms[k].value), HeightOfMembers(ms, k + 1))
    ensures k + 1 == |ms| ==>
            MembersFrom(f, ms, k + 1) == [] && NormMembers(ms, k + 1) == [] && HeightOfMembers(ms, k + 1) == 0
    ensures k + 1 < |ms| ==> MembersFrom(f, ms, k + 1) + [125] == [COMMA] + MemberText(f, ms, k + 1)
  {
    hide ValueText, Norm, Height, Quoted, Colon;
  }

  // ----- What stays the same -------------------------------------------------------------------

  /** Equal up to the kind of integers. */
  predicate SameNumbers(a: Value, b: Value)
    decreases a, 0
  {
    match (a, b)
    case (Int(i), Int(j)) => i == j
    case (Int(i), UInt(j)) => i == j
    case (UInt(i), Int(j)) => i == j
    case (UInt(i), UInt(j)) => i == j
    case (Arr(xs), Arr(ys)) => |xs| == |ys| && forall k :: 0 <= k < |xs| ==> SameNumbers(xs[k], ys[k])
    case (Obj(ms), Obj(ns)) =>
      |ms| == |ns| && forall k :: 0 <= k < |ms| ==> ms[k].key == ns[k].key && SameNumbers(ms[k].value, ns[k].value)
    case _ => a == b
  }

  lemma {:induction false} NormItemsAt(xs: seq<Value>, k: nat, j: nat)
    requires k <= j < |xs|
    ensures NormItems(xs, k)[j - k] == Norm(xs[j])
    decreases j - k
  {
    hide Norm;
    if k < j {
      NormItemsAt(xs, k + 1, j);
    }
  }

  lemma {:induction false} NormMembersAt(ms: seq<Member>, k: nat, j: nat)
    requires k <= j < |ms|
    ensures NormMembers(ms, k)[j - k] == Member(ms[j].key, Norm(ms[j].value))
    decreases j - k
  {
    hide Norm;
    if k < j {
      NormMembersAt(ms, k + 1, j);
    }
  }

  /** What comes back is the tree that was written, up to the kind of integers. */
  lemma {:induction false} NormSame(v: Value)
    ensures SameNumbers(v, Norm(v))
  {
    match v
    case Arr(xs) =>
      forall k | 0 <= k < |xs| ensures SameNumbers(xs[k], NormItems(xs, 0)[k]) {
        NormItemsAt(xs, 0, k);
        NormSame(xs[k]);
      }
    case Obj(ms) =>
      forall k | 0 <= k < |ms|
        ensures NormMembers(ms, 0)[k].key == ms[k].key && SameNumbers(ms[k].value, NormMembers(ms, 0)[k].value)
      {
        NormMembersAt(ms, 0, k);
        NormSame(ms[k].value);
      }
    case _ =>
  }

  // ----- The law ---------------------------------------------------------------------------------

  /** What `FastWriter::write` returns. */
  function Written(f: Format, omitEndingLineFeed: bool, v: Value): Bytes {
    ValueText(f, v) + (if omitEndingLineFeed then [] else [10])
  }

  /** The round trip, and exactly how far it goes. */
  lemma RoundTrip(dr: DoubleReader, f: Format, omitEndingLineFeed: bool, v: Value, root: Value)
    requires Printable(f, v)
    ensures var o := Parse(dr, Written(f, omitEndingLineFeed, v), root);
            if Height(v) <= STACK_LIMIT then o == Done(true, Norm(v), |ValueText(f, v)|, []) else o == StackLimit
  {
    var doc := Written(f, omitEndingLineFeed, v);
    hide ValueText, ReadValue, Printable, Norm, Height;
    assert doc[0..|ValueText(f, v)|] == ValueText(f, v);
    ValueBack(dr, f, v, doc, 0, 1, root);
  }
}
