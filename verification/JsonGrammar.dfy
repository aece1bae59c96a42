/**
  What `Json::Reader` (with its default features, and without keeping comments)
  makes of a document, as functions of the document and a position.  The class
  in JsonReader.dfy computes these functions by moving a cursor.
 */
module JsonGrammar {
  import opened Wrappers
  import opened JsonValue
  import opened JsonNumber
  import opened JsonString

  const STACK_LIMIT := 1000

  /** `decodeDouble`: what the C++ stream extraction makes of a number token. */
  type DoubleReader = Bytes -> Option<real>

  datatype TokenType =
    | ObjectBegin | ObjectEnd | ArrayBegin | ArrayEnd | String | Number | True | False | NullToken
    | ArraySeparator | MemberSeparator | Comment | EndOfStream | ErrorToken

  /** `doc[start..end]` is the token; the cursor is left at `end`. */
  datatype Token = Token(kind: TokenType, start: nat, end: nat)

  datatype ReadError =
    | ValueExpected | NotANumber | BadString(why: Decoded)
    | MissingNameOrBrace | MissingColon | MissingCommaOrBrace | MissingCommaOrBracket

  /** Success flag, the value left in the current node, the cursor, and the errors
      added; or the exception for too deep a nesting. */
  datatype Outcome = Done(ok: bool, value: Value, end: nat, errors: seq<ReadError>) | StackLimit

  // ----- Tokens -------------------------------------------------------------------------

  predicate IsSpace(b: Byte) {
    b == 32 || b == 9 || b == 13 || b == 10
  }

  function SkipSpaces(doc: Bytes, i: nat): (j: nat)
    requires i <= |doc|
    ensures i <= j <= |doc|
    ensures j == |doc| || !IsSpace(doc[j])
    decreases |doc| - i
  {
    if i < |doc| && IsSpace(doc[i]) then SkipSpaces(doc, i + 1) else i
  }

  function SkipDigits(doc: Bytes, i: nat): (j: nat)
    requires i <= |doc|
    ensures i <= j <= |doc|
    decreases |doc| - i
  {
    if i < |doc| && IsDigit(doc[i]) then SkipDigits(doc, i + 1) else i
  }

  predicate At(doc: Bytes, i: nat, b: Byte) {
    i < |doc| && doc[i] == b
  }

  /** `readNumber` after the first character: digits, then a fraction, then an
      exponent, any of whose digits may be missing. */
  function NumberEnd(doc: Bytes, i: nat): (j: nat)
    requires i <= |doc|
    ensures i <= j <= |doc|
  {
    var a := SkipDigits(doc, i);
    var b := if At(doc, a, 46) then SkipDigits(doc, a + 1) else a;
    if At(doc, b, 101) || At(doc, b, 69) then
      var c := if At(doc, b + 1, 43) || At(doc, b + 1, 45) then b + 2 else b + 1;
      SkipDigits(doc, c)
    else b
  }

  /** `readCStyleComment`, after the opening of the comment. */
  function CCommentEnd(doc: Bytes, i: nat): (r: (bool, nat))
    requires i <= |doc|
    ensures i <= r.1 <= |doc|
    decreases |doc| - i
  {
    if i + 1 < |doc| then
      if doc[i] == 42 && doc[i + 1] == 47 then (true, i + 2) else CCommentEnd(doc, i + 1)
    else if i < |doc| then (doc[i] == 47, i + 1)
    else (false, i)
  }

  /** `readCppStyleComment`: to the end of the line. */
  function LineCommentEnd(doc: Bytes, i: nat): (j: nat)
    requires i <= |doc|
    ensures i <= j <= |doc|
    decreases |doc| - i
  {
    if i == |doc| then i
    else if doc[i] == 10 then i + 1
    else if doc[i] == 13 then (if At(doc, i + 1, 10) then i + 2 else i + 1)
    else LineCommentEnd(doc, i + 1)
  }

  /** `readComment`, after the first slash. */
  function CommentEnd(doc: Bytes, i: nat): (r: (bool, nat))
    requires i <= |doc|
    ensures i <= r.1 <= |doc|
  {
    if i == |doc| then (false, i)
    else if doc[i] == 42 then CCommentEnd(doc, i + 1)
    else if doc[i] == 47 then (true, LineCommentEnd(doc, i + 1))
    else (false, i + 1)
  }

  predicate Matches(doc: Bytes, i: nat, pattern: Bytes) {
    i + |pattern| <= |doc| && doc[i..i + |pattern|] == pattern
  }

  function Keyword(doc: Bytes, i: nat, pattern: Bytes, kind: TokenType): (TokenType, nat) {
    if Matches(doc, i, pattern) then (kind, i + |pattern|) else (ErrorToken, i)
  }

  const RUE: Bytes := [114, 117, 101]
  const ALSE: Bytes := [97, 108, 115, 101]
  const ULL: Bytes := [117, 108, 108]

  /** The `switch` of `readToken`: the kind and end of the token that starts with
      the character at `i`. */
  function TokenAt(doc: Bytes, i: nat): (r: (TokenType, nat))
    requires i < |doc|
    ensures i < r.1 <= |doc|
    ensures r.0 == String ==> doc[i] == QUOTE && i + 2 <= r.1 && doc[r.1 - 1] == QUOTE
    ensures r.0 == Number ==> IsDigit(doc[i]) || doc[i] == MINUS
  {
    var c: int := doc[i];
    if c == 123 then (ObjectBegin, i + 1)
    else if c == 125 then (ObjectEnd, i + 1)
    else if c == 91 then (ArrayBegin, i + 1)
    else if c == 93 then (ArrayEnd, i + 1)
    else if c == 34 then
      var r := ScanString(doc[i + 1..]);
      ScanEndsInQuote(doc[i + 1..]);
      (if r.0 then String else ErrorToken, i + 1 + r.1)
    else if c == 47 then
      var r := CommentEnd(doc, i + 1);
      (if r.0 then Comment else ErrorToken, r.1)
    else if 48 <= c <= 57 || c == 45 then (Number, NumberEnd(doc, i + 1))
    else if c == 116 then Keyword(doc, i + 1, RUE, True)
    else if c == 102 then Keyword(doc, i + 1, ALSE, False)
    else if c == 110 then Keyword(doc, i + 1, ULL, NullToken)
    else if c == 44 then (ArraySeparator, i + 1)
    else if c == 58 then (MemberSeparator, i + 1)
    else if c == 0 then (EndOfStream, i + 1)
    else (ErrorToken, i + 1)
  }

  lemma {:induction false} ScanEndsInQuote(d: Bytes)
    ensures ScanString(d).0 ==> 1 <= ScanString(d).1 && d[ScanString(d).1 - 1] == QUOTE
  {
    if d != [] && d[0] == BACKSLASH && |d| > 1 {
      ScanEndsInQuote(d[2..]);
    } else if d != [] && d[0] != QUOTE {
      ScanEndsInQuote(d[1..]);
    }
  }

  function ReadToken(doc: Bytes, i: nat): (t: Token)
    requires i <= |doc|
    ensures i <= t.start <= t.end <= |doc|
    ensures t.kind != EndOfStream ==> t.start < t.end
    ensures t.kind == String ==> t.start + 2 <= t.end
  {
    var s := SkipSpaces(doc, i);
    if s == |doc| then Token(EndOfStream, s, s)
    else Token(TokenAt(doc, s).0, s, TokenAt(doc, s).1)
  }

  /** `skipCommentTokens`, and the comment loops of `readObject` and `readArray`. */
  function ReadSkippingComments(doc: Bytes, i: nat): (t: Token)
    requires i <= |doc|
    ensures i <= t.start <= t.end <= |doc| && t.kind != Comment
    ensures t.kind != EndOfStream ==> t.start < t.end
    ensures t.kind == String ==> t.start + 2 <= t.end
    decreases |doc| - i
  {
    var t := ReadToken(doc, i);
    if t.kind == Comment then ReadSkippingComments(doc, t.end) else t
  }

  /** `recoverFromError`: skip to the next token of the given kind or the end. */
  function Recover(doc: Bytes, i: nat, until: TokenType): (j: nat)
    requires i <= |doc|
    ensures i <= j <= |doc|
    decreases |doc| - i
  {
    var t := ReadToken(doc, i);
    if t.kind == until || t.kind == EndOfStream then t.end else Recover(doc, t.end, until)
  }

  // ----- Object members --------------------------------------------------------------------

  /** `Value::operator[](key)` on a sorted member list: the value found, or null. */
  function Lookup(ms: seq<Member>, key: Bytes): Value {
    if ms == [] then Null
    else if ms[0].key == key then ms[0].value
    else Lookup(ms[1..], key)
  }

  /** Insert or overwrite, keeping the key order. */
  function Put(ms: seq<Member>, key: Bytes, value: Value): seq<Member> {
    if ms == [] || LessBytes(key, ms[0].key) then [Member(key, value)] + ms
    else if ms[0].key == key then [Member(key, value)] + ms[1..]
    else [ms[0]] + Put(ms[1..], key, value)
  }

  // ----- Values ----------------------------------------------------------------------------

  function NumberOutcome(dr: DoubleReader, doc: Bytes, t: Token, slot: Value): Outcome
    requires t.start <= t.end <= |doc|
  {
    match NumberOf(doc[t.start..t.end])
    case Integer(v) => Done(true, v, t.end, [])
    case Double =>
      match dr(doc[t.start..t.end])
      case Some(r) => Done(true, Real(r), t.end, [])
      case None => Done(false, slot, t.end, [NotANumber])
  }

  function StringOutcome(doc: Bytes, t: Token, slot: Value): Outcome
    requires t.start + 2 <= t.end <= |doc|
  {
    match DecodeBody(doc[t.start + 1..t.end - 1])
    case Text(s) => Done(true, Str(s), t.end, [])
    case e => Done(false, slot, t.end, [BadString(e)])
  }

  /** The cases of `readValue` for a token that opens neither an object nor an array. */
  function ScalarOutcome(dr: DoubleReader, doc: Bytes, t: Token, slot: Value): (r: Outcome)
    requires t.start <= t.end <= |doc| && (t.kind == String ==> t.start + 2 <= t.end)
    ensures r.Done? && r.end == t.end && |r.errors| == (if r.ok then 0 else 1)
  {
    match t.kind
    case Number => NumberOutcome(dr, doc, t, slot)
    case String => StringOutcome(doc, t, slot)
    case True => Done(true, Bool(true), t.end, [])
    case False => Done(true, Bool(false), t.end, [])
    case NullToken => Done(true, Null, t.end, [])
    case _ => Done(false, slot, t.end, [ValueExpected])
  }

  /** `readValue` with `depth` nodes on the stack and `slot` in the current one. */
  function ReadValue(dr: DoubleReader, doc: Bytes, i: nat, depth: nat, slot: Value): (r: Outcome)
    requires i <= |doc|
    ensures r.Done? ==> i <= r.end <= |doc| && |r.errors| == (if r.ok then 0 else 1)
    decreases |doc| - i, 0
  {
    if depth > STACK_LIMIT then StackLimit
    else
      var t := ReadSkippingComments(doc, i);
      if t.kind == ObjectBegin then ReadMembers(dr, doc, t.end, depth, [], [])
      else if t.kind == ArrayBegin then
        var s := SkipSpaces(doc, t.end);
        if At(doc, s, 93) then Done(true, Arr([]), ReadToken(doc, s).end, [])
        else ReadItems(dr, doc, s, depth, [])
      else ScalarOutcome(dr, doc, t, slot)
  }

  /** The loop of `readArray` with the given items already read. */
  function ReadItems(dr: DoubleReader, doc: Bytes, i: nat, depth: nat, items: seq<Value>): (r: Outcome)
    requires i <= |doc|
    ensures r.Done? ==> i <= r.end <= |doc| && |r.errors| == (if r.ok then 0 else 1)
    decreases |doc| - i, 1
  {
    var v := ReadValue(dr, doc, i, depth + 1, Null);
    if v.StackLimit? then StackLimit
    else
      var items' := items + [v.value];
      if !v.ok then Done(false, Arr(items'), Recover(doc, v.end, ArrayEnd), v.errors)
      else AfterItem(dr, doc, v.end, depth, items')
  }

  /** The end of the loop of `readArray`, after the item was stored. */
  function AfterItem(dr: DoubleReader, doc: Bytes, i: nat, depth: nat, items: seq<Value>): (r: Outcome)
    requires i <= |doc|
    ensures r.Done? ==> i <= r.end <= |doc| && |r.errors| == (if r.ok then 0 else 1)
    decreases |doc| - i, 0
  {
    var t := ReadSkippingComments(doc, i);
    if t.kind == ArrayEnd then Done(true, Arr(items), t.end, [])
    else if t.kind == ArraySeparator then ReadItems(dr, doc, t.end, depth, items)
    else Done(false, Arr(items), Recover(doc, t.end, ArrayEnd), [MissingCommaOrBracket])
  }

  /** The loop of `readObject` with the given members already read, where `name`
      is the last name; a closing brace ends the object here only after an empty
      name. */
  function ReadMembers(dr: DoubleReader, doc: Bytes, i: nat, depth: nat, members: seq<Member>,
                       name: Bytes): (r: Outcome)
    requires i <= |doc|
    ensures r.Done? ==> i <= r.end <= |doc| && |r.errors| == (if r.ok then 0 else 1)
    decreases |doc| - i, 1
  {
    var t := ReadSkippingComments(doc, i);
    if t.kind == ObjectEnd && name == [] then Done(true, Obj(members), t.end, [])
    else if t.kind != String then Done(false, Obj(members), Recover(doc, t.end, ObjectEnd), [MissingNameOrBrace])
    else
      var key := DecodeBody(doc[t.start + 1..t.end - 1]);
      if !key.Text? then Done(false, Obj(members), Recover(doc, t.end, ObjectEnd), [BadString(key)])
      else
        var colon := ReadToken(doc, t.end);
        if colon.kind != MemberSeparator then
          Done(false, Obj(members), Recover(doc, colon.end, ObjectEnd), [MissingColon])
        else
          MemberOutcome(dr, doc, colon.end, depth, members, key.text)
  }

  /** The rest of the loop of `readObject`, after the colon. */
  function MemberOutcome(dr: DoubleReader, doc: Bytes, i: nat, depth: nat, members: seq<Member>,
                         key: Bytes): (r: Outcome)
    requires i <= |doc|
    ensures r.Done? ==> i <= r.end <= |doc| && |r.errors| == (if r.ok then 0 else 1)
    decreases |doc| - i, 1
  {
    var v := ReadValue(dr, doc, i, depth + 1, Lookup(members, key));
    if v.StackLimit? then StackLimit
    else
      var members' := Put(members, key, v.value);
      if !v.ok then Done(false, Obj(members'), Recover(doc, v.end, ObjectEnd), v.errors)
      else AfterMember(dr, doc, v.end, depth, members', key)
  }

  /** The end of the loop of `readObject`, after the value was stored. */
  function AfterMember(dr: DoubleReader, doc: Bytes, i: nat, depth: nat, members: seq<Member>, key: Bytes): (r: Outcome)
    requires i <= |doc|
    ensures r.Done? ==> i <= r.end <= |doc| && |r.errors| == (if r.ok then 0 else 1)
    decreases |doc| - i, 0
  {
    var comma := ReadToken(doc, i);
    if comma.kind != ObjectEnd && comma.kind != ArraySeparator && comma.kind != Comment then
      Done(false, Obj(members), Recover(doc, comma.end, ObjectEnd), [MissingCommaOrBrace])
    else
      var next := if comma.kind == Comment then ReadSkippingComments(doc, comma.end) else comma;
      if next.kind == ObjectEnd then Done(true, Obj(members), next.end, [])
      else ReadMembers(dr, doc, next.end, depth, members, key)
  }

  /** `Reader::parse`: the success flag and the root value, or the exception. */
  function Parse(dr: DoubleReader, doc: Bytes, root: Value): Outcome {
    ReadValue(dr, doc, 0, 1, root)
  }

  // ----- One turn at a time ---------------------------------------------------------------

  /** One turn of the loop of `readArray`. */
  lemma ItemsUnfold(dr: DoubleReader, doc: Bytes, i: nat, depth: nat, items: seq<Value>)
    requires i <= |doc|
    ensures ReadItems(dr, doc, i, depth, items) == (
              var v := ReadValue(dr, doc, i, depth + 1, Null);
              if v.StackLimit? then StackLimit
              else
                var items' := items + [v.value];
                if !v.ok then Done(false, Arr(items'), Recover(doc, v.end, ArrayEnd), v.errors)
                else
                  var t := ReadSkippingComments(doc, v.end);
                  if t.kind == ArrayEnd then Done(true, Arr(items'), t.end, [])
                  else if t.kind == ArraySeparator then ReadItems(dr, doc, t.end, depth, items')
                  else Done(false, Arr(items'), Recover(doc, t.end, ArrayEnd), [MissingCommaOrBracket]))
  {
    hide ReadValue, ReadSkippingComments, Recover;
  }

  /** One turn of the loop of `readObject`. */
  lemma MembersUnfold(dr: DoubleReader, doc: Bytes, i: nat, depth: nat, members: seq<Member>, name: Bytes)
    requires i <= |doc|
    ensures ReadMembers(dr, doc, i, depth, members, name) == (
              var t := ReadSkippingComments(doc, i);
              if t.kind == ObjectEnd && name == [] then Done(true, Obj(members), t.end, [])
              else if t.kind != String
              then Done(false, Obj(members), Recover(doc, t.end, ObjectEnd), [MissingNameOrBrace])
              else
                var key := DecodeBody(doc[t.start + 1..t.end - 1]);
                if !key.Text? then Done(false, Obj(members), Recover(doc, t.end, ObjectEnd), [BadString(key)])
                else
                  var colon := ReadToken(doc, t.end);
                  if colon.kind != MemberSeparator then
                    Done(false, Obj(members), Recover(doc, colon.end, ObjectEnd), [MissingColon])
                  else MemberOutcome(dr, doc, colon.end, depth, members, key.text))
  {
    hide ReadToken, ReadSkippingComments, Recover, DecodeBody, MemberOutcome;
  }
}
