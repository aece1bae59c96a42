/**
  `Json::Reader`: the recursive-descent parser with its cursor `current_`, node
  stack `nodes_` and error list `errors_`.

  The source's stack holds pointers: a pushed node is the slot of an item or a
  member inside the node below it.  Here the stack holds the nodes' values;
  pushing takes the slot's present value and popping stores the node's value back
  into its slot, so the node below is up to date whenever it is on top.
 */
module JsonReader {
  import opened JsonValue
  import opened JsonNumber
  import opened JsonString
  import opened JsonGrammar
  import opened Wrappers
  import JsonText
  import JsonLanguage

  /** How a reading function ended; `Threw` is the exception of `readValue`. */
  datatype Status = Succeeded | Failed | Threw

  /** The nodes below the current one. */
  function Below(nodes: seq<Value>): seq<Value>
    requires nodes != []
  {
    nodes[..|nodes| - 1]
  }

  class Reader {
    const doc: Bytes
    const decodeDouble: DoubleReader
    var current: nat
    var nodes: seq<Value>
    var errors: seq<ReadError>

    constructor (document: Bytes, dr: DoubleReader)
      ensures doc == document && decodeDouble == dr
      ensures current == 0 && nodes == [] && errors == []
    {
      doc, decodeDouble, current, nodes, errors := document, dr, 0, [], [];
    }

    /** The cursor stays within the document. */
    ghost predicate Valid()
      reads this
    {
      current <= |doc|
    }

    // ----- Tokens -----------------------------------------------------------------------

    /** `getNextChar`: 0 at the end of the document. */
    method GetNextChar() returns (c: Byte)
      requires Valid()
      modifies `current
      ensures Valid()
      ensures old(current) == |doc| ==> c == 0 && current == old(current)
      ensures old(current) < |doc| ==> c == doc[old(current)] && current == old(current) + 1
    {
      if current == |doc| {
        return 0;
      }
      c := doc[current];
      current := current + 1;
    }

    /** `skipSpaces` */
    method SkipWhite()
      requires Valid()
      modifies `current
      ensures Valid() && current == SkipSpaces(doc, old(current))
    {
      while current != |doc|
        invariant Valid() && SkipSpaces(doc, current) == SkipSpaces(doc, old(current))
        decreases |doc| - current
      {
        var c := doc[current];
        if c == 32 || c == 9 || c == 13 || c == 10 {
          current := current + 1;
        } else {
          break;
        }
      }
    }

    /** `match` */
    method Match(pattern: Bytes) returns (ok: bool)
      requires Valid()
      modifies `current
      ensures Valid() && ok == Matches(doc, old(current), pattern)
      ensures current == if ok then old(current) + |pattern| else old(current)
    {
      if |doc| - current < |pattern| {
        return false;
      }
      var index := |pattern|;
      while index > 0
        invariant 0 <= index <= |pattern|
        invariant forall k :: index <= k < |pattern| ==> doc[current + k] == pattern[k]
      {
        index := index - 1;
        if doc[current + index] != pattern[index] {
          assert doc[current..current + |pattern|][index] != pattern[index];
          return false;
        }
      }
      assert doc[current..current + |pattern|] == pattern;
      current := current + |pattern|;
      ok := true;
    }

    /** `readCStyleComment` */
    method ReadCStyleComment() returns (ok: bool)
      requires Valid()
      modifies `current
      ensures Valid() && (ok, current) == CCommentEnd(doc, old(current))
    {
      while current + 1 < |doc|
        invariant Valid() && CCommentEnd(doc, current) == CCommentEnd(doc, old(current))
        decreases |doc| - current
      {
        var c := GetNextChar();
        if c == 42 && doc[current] == 47 {
          break;
        }
      }
      var last := GetNextChar();
      ok := last == 47;
    }

    /** `readCppStyleComment` */
    method ReadCppStyleComment()
      requires Valid()
      modifies `current
      ensures Valid() && current == LineCommentEnd(doc, old(current))
    {
      while current != |doc|
        invariant Valid() && LineCommentEnd(doc, current) == LineCommentEnd(doc, old(current))
        decreases |doc| - current
      {
        var c := GetNextChar();
        if c == 10 {
          break;
        }
        if c == 13 {
          if current != |doc| && doc[current] == 10 {
            var _ := GetNextChar();
          }
          break;
        }
      }
    }

    /** `readComment`, without collecting it. */
    method ReadComment() returns (ok: bool)
      requires Valid()
      modifies `current
      ensures Valid() && (ok, current) == CommentEnd(doc, old(current))
    {
      var c := GetNextChar();
      ok := false;
      if c == 42 {
        ok := ReadCStyleComment();
      } else if c == 47 {
        ReadCppStyleComment();
        ok := true;
      }
    }

    /** `readString` */
    method ReadString() returns (ok: bool)
      requires Valid()
      modifies `current
      ensures Valid()
      ensures ok == ScanString(doc[old(current)..]).0 && current == old(current) + ScanString(doc[old(current)..]).1
    {
      var c: Byte := 0;
      ghost var start := ScanString(doc[current..]);
      while current != |doc|
        invariant Valid() && c != QUOTE
        invariant start == (ScanString(doc[current..]).0, ScanString(doc[current..]).1 + current - old(current))
        decreases |doc| - current
      {
        ghost var rest := doc[current..];
        c := GetNextChar();
        assert rest[1..] == doc[current..];
        if c == BACKSLASH {
          assert |rest| > 1 ==> rest[2..] == doc[current + 1..];
          var _ := GetNextChar();
        } else if c == QUOTE {
          break;
        }
      }
      ok := c == QUOTE;
    }

    /** `readNumber`.  In the source `p` runs one character ahead of `current_`,
        and `c` is the character at `current_`, or NUL at the end. */
    method ReadNumber()
      requires Valid()
      modifies `current
      ensures Valid() && current == NumberEnd(doc, old(current))
    {
      hide SkipDigits, IsDigit;
      Digits();
      if At(doc, current, 46) {
        current := current + 1;
        Digits();
      }
      if At(doc, current, 101) || At(doc, current, 69) {
        current := current + 1;
        if At(doc, current, 43) || At(doc, current, 45) {
          current := current + 1;
        }
        Digits();
      }
    }

    /** The digit loop of `readNumber`. */
    method Digits()
      requires Valid()
      modifies `current
      ensures Valid() && current == SkipDigits(doc, old(current))
    {
      while current < |doc| && IsDigit(doc[current])
        invariant Valid() && SkipDigits(doc, current) == SkipDigits(doc, old(current))
      {
        current := current + 1;
      }
    }

    /** `readToken` */
    method NextToken() returns (t: Token)
      requires Valid()
      modifies `current
      ensures Valid() && t == ReadToken(doc, old(current)) && current == t.end
    {
      hide SkipSpaces, ScanString, CommentEnd, NumberEnd, Matches;
      SkipWhite();
      var start := current;
      var c := GetNextChar();
      var ok := true;
      var kind := EndOfStream;
      if c == 123 {
        kind := ObjectBegin;
      } else if c == 125 {
        kind := ObjectEnd;
      } else if c == 91 {
        kind := ArrayBegin;
      } else if c == 93 {
        kind := ArrayEnd;
      } else if c == 34 {
        kind := String;
        ok := ReadString();
      } else if c == 47 {
        kind := Comment;
        ok := ReadComment();
      } else if 48 <= c <= 57 || c == 45 {
        kind := Number;
        ReadNumber();
      } else if c == 116 {
        kind := True;
        ok := Match(RUE);
      } else if c == 102 {
        kind := False;
        ok := Match(ALSE);
      } else if c == 110 {
        kind := NullToken;
        ok := Match(ULL);
      } else if c == 44 {
        kind := ArraySeparator;
      } else if c == 58 {
        kind := MemberSeparator;
      } else if c != 0 {
        ok := false;
      }
      t := Token(if ok then kind else ErrorToken, start, current);
    }

    /** `skipCommentTokens` */
    method NextSkippingComments() returns (t: Token)
      requires Valid()
      modifies `current
      ensures Valid() && t == ReadSkippingComments(doc, old(current)) && current == t.end
    {
      t := NextToken();
      while t.kind == Comment
        invariant Valid() && current == t.end
        invariant ReadSkippingComments(doc, old(current)) ==
                  if t.kind == Comment then ReadSkippingComments(doc, t.end) else t
        decreases |doc| - current, if t.kind == Comment then 1 else 0
      {
        t := NextToken();
      }
    }

    /** `recoverFromError`.  Reading tokens adds no errors, so cutting `errors_`
        back to its old size changes nothing. */
    method RecoverFromError(until: TokenType)
      requires Valid()
      modifies `current
      ensures Valid() && current == Recover(doc, old(current), until)
    {
      var skip := NextToken();
      while skip.kind != until && skip.kind != EndOfStream
        invariant Valid() && current == skip.end
        invariant Recover(doc, old(current), until) ==
                  if skip.kind == until || skip.kind == EndOfStream then skip.end else Recover(doc, skip.end, until)
        decreases |doc| - current, if skip.kind == EndOfStream then 0 else 1
      {
        skip := NextToken();
      }
    }

    // ----- Values ---------------------------------------------------------------------------

    /** What a reading function for the current node leaves behind. */
    twostate predicate Leaves(o: Outcome, r: Status)
      reads this
    {
      && Valid()
      && |old(nodes)| > 0
      && (r == Threw <==> o.StackLimit?)
      && (o.Done? ==>
            && (r == Succeeded <==> o.ok)
            && current == o.end
            && nodes == Below(old(nodes)) + [o.value]
            && errors == old(errors) + o.errors)
    }

    /** After a turn of the loop of `readArray` that is not the last, the outcome of the
        whole loop is that of its rest. */
    twostate predicate GoesOnWithArray(all: Outcome)
      reads this
    {
      && Valid() && old(current) < current && errors == old(errors)
      && |nodes| == |old(nodes)| > 0 && nodes[|nodes| - 1].Arr? && Below(nodes) == Below(old(nodes))
      && all == ReadItems(decodeDouble, doc, current, |nodes|, nodes[|nodes| - 1].items)
    }

    /** The same for the loop of `readObject`. */
    twostate predicate GoesOnWithObject(all: Outcome, name: Bytes)
      reads this
    {
      && Valid() && old(current) < current && errors == old(errors)
      && |nodes| == |old(nodes)| > 0 && nodes[|nodes| - 1].Obj? && Below(nodes) == Below(old(nodes))
      && all == ReadMembers(decodeDouble, doc, current, |nodes|, nodes[|nodes| - 1].members, name)
    }

    /** `readValue` */
    method Value() returns (r: Status)
      requires Valid() && nodes != []
      modifies this
      decreases |doc| - current, 1
      ensures Leaves(ReadValue(decodeDouble, doc, old(current), |old(nodes)|, old(nodes)[|old(nodes)| - 1]), r)
    {
      hide ReadMembers, ReadItems, ScalarOutcome, SkipSpaces, ReadToken, ReadSkippingComments, At;
      if |nodes| > STACK_LIMIT {
        return Threw;
      }
      var token := NextSkippingComments();
      if token.kind == ObjectBegin {
        r := ReadObject();
      } else if token.kind == ArrayBegin {
        r := ReadArray();
      } else {
        r := Scalar(token);
      }
    }

    /** The other cases of `readValue`. */
    method Scalar(token: Token) returns (r: Status)
      requires Valid() && nodes != [] && token.start <= token.end <= |doc| && current == token.end
      requires token.kind != EndOfStream ==> token.start < token.end
      requires token.kind == String ==> token.start + 2 <= token.end
      modifies `nodes, `errors
      ensures Leaves(ScalarOutcome(decodeDouble, doc, token, old(nodes)[|old(nodes)| - 1]), r)
    {
      hide NumberOutcome, NumberOf, DecodeBody;
      if token.kind == Number {
        var n := DecodeNumber(doc, token.start, token.end);
        r := StoreNumber(n, token);
      } else if token.kind == String {
        r := StoreString(token);
      } else if token.kind == True {
        r := Store(Bool(true));
      } else if token.kind == False {
        r := Store(Bool(false));
      } else if token.kind == NullToken {
        r := Store(Null);
      } else {
        r := AddError(ValueExpected);
      }
    }

    /** `currentValue().swapPayload(v)` */
    method Store(v: Value) returns (r: Status)
      requires Valid() && nodes != []
      modifies `nodes
      ensures r == Succeeded && nodes == Below(old(nodes)) + [v]
    {
      nodes := nodes[|nodes| - 1 := v];
      r := Succeeded;
    }

    /** `addError` */
    method AddError(e: ReadError) returns (r: Status)
      modifies `errors
      ensures r == Failed && errors == old(errors) + [e]
    {
      errors := errors + [e];
      r := Failed;
    }

    /** `addErrorAndRecover` */
    method AddErrorAndRecover(e: ReadError, until: TokenType) returns (r: Status)
      requires Valid()
      modifies `errors, `current
      ensures r == Failed && errors == old(errors) + [e]
      ensures Valid() && current == Recover(doc, old(current), until)
    {
      r := AddError(e);
      RecoverFromError(until);
    }

    /** `decodeString(token)` */
    method StoreString(token: Token) returns (r: Status)
      requires Valid() && nodes != [] && token.start + 2 <= token.end <= |doc| && current == token.end
      modifies `nodes, `errors
      ensures Leaves(StringOutcome(doc, token, old(nodes)[|old(nodes)| - 1]), r)
    {
      var d := DecodeString(doc, token.start, token.end);
      if d.Text? {
        r := Store(Str(d.text));
      } else {
        r := AddError(BadString(d));
      }
    }

    /** `decodeNumber(token)`: storing the decoded number in the current node. */
    method StoreNumber(n: Number, token: Token) returns (r: Status)
      requires Valid() && nodes != [] && token.start <= token.end <= |doc| && current == token.end
      requires n == NumberOf(doc[token.start..token.end])
      modifies `nodes, `errors
      ensures Leaves(NumberOutcome(decodeDouble, doc, token, old(nodes)[|old(nodes)| - 1]), r)
    {
      var top := |nodes| - 1;
      r := Succeeded;
      match n {
        case Integer(v) => nodes := nodes[top := v];
        case Double =>
          match decodeDouble(doc[token.start..token.end]) {
            case Some(x) => nodes := nodes[top := Real(x)];
            case None =>
              errors := errors + [NotANumber];
              r := Failed;
          }
      }
    }

    /** `readArray`, after its opening bracket. */
    method ReadArray() returns (r: Status)
      requires Valid() && nodes != []
      modifies this
      decreases |doc| - current, 3
      ensures var s := SkipSpaces(doc, old(current));
              Leaves(if At(doc, s, 93) then Done(true, Arr([]), ReadToken(doc, s).end, [])
                     else ReadItems(decodeDouble, doc, s, |old(nodes)|, []), r)
    {
      r := Store(Arr([]));
      SkipWhite();
      if current != |doc| && doc[current] == 93 {
        var _ := NextToken();
        return;
      }
      ghost var all := ReadItems(decodeDouble, doc, current, |nodes|, []);
      assert Below(nodes) == Below(old(nodes));
      hide Below, ReadItems, ReadValue, Recover, ReadSkippingComments, ReadToken, SkipSpaces;
      var more := true;
      while more
        invariant more ==> Valid() && |nodes| == |old(nodes)| && nodes[|nodes| - 1].Arr?
        invariant more ==> Below(nodes) == Below(old(nodes)) && errors == old(errors)
        invariant more ==> all == ReadItems(decodeDouble, doc, current, |nodes|, nodes[|nodes| - 1].items)
        invariant !more ==> Leaves(all, r)
        decreases more, |doc| - current
      {
        r, more := ReadItem();
      }
    }

    /** One turn of the loop of `readArray`. */
    method ReadItem() returns (r: Status, more: bool)
      requires Valid() && nodes != [] && nodes[|nodes| - 1].Arr?
      modifies this
      decreases |doc| - current, 2
      ensures var all := ReadItems(decodeDouble, doc, old(current), |old(nodes)|, old(nodes)[|old(nodes)| - 1].items);
              if more then GoesOnWithArray(all) else Leaves(all, r)
    {
      hide AfterItem, ReadValue, Recover;
      var top := |nodes| - 1;
      var before := nodes[top].items;
      more := false;
      nodes := nodes[top := Arr(before + [Null])] + [Null];
      r := Value();
      if r == Threw {
        return;
      }
      var items := nodes[top].items;
      nodes := nodes[..top] + [Arr(items[|items| - 1 := nodes[top + 1]])];
      assert nodes[top].items == before + [nodes[top].items[|before|]];
      if r == Failed {
        RecoverFromError(ArrayEnd);
        return;
      }
      r, more := NextItem();
    }

    /** The end of that loop: a comma, a closing bracket or an error. */
    method NextItem() returns (r: Status, more: bool)
      requires Valid() && nodes != [] && nodes[|nodes| - 1].Arr?
      modifies this
      ensures var all := AfterItem(decodeDouble, doc, old(current), |old(nodes)|, old(nodes)[|old(nodes)| - 1].items);
              if more then GoesOnWithArray(all) else Leaves(all, r)
    {
      hide ReadItems, Recover, ReadSkippingComments;
      r, more := Succeeded, false;
      var token := NextSkippingComments();
      if token.kind != ArraySeparator && token.kind != ArrayEnd {
        r := AddErrorAndRecover(MissingCommaOrBracket, ArrayEnd);
        return;
      }
      more := token.kind != ArrayEnd;
    }

    /** `readObject`, after its opening brace. */
    method ReadObject() returns (r: Status)
      requires Valid() && nodes != []
      modifies this
      decreases |doc| - current, 3
      ensures Leaves(ReadMembers(decodeDouble, doc, old(current), |old(nodes)|, [], []), r)
    {
      r := Store(Obj([]));
      var name: Bytes := [];
      ghost var all := ReadMembers(decodeDouble, doc, current, |nodes|, [], []);
      assert Below(nodes) == Below(old(nodes));
      hide ReadMembers, Below;
      var more := true;
      while more
        invariant more ==> Valid() && |nodes| == |old(nodes)| && nodes[|nodes| - 1].Obj?
        invariant more ==> Below(nodes) == Below(old(nodes)) && errors == old(errors)
        invariant more ==> all == ReadMembers(decodeDouble, doc, current, |nodes|, nodes[|nodes| - 1].members, name)
        invariant !more ==> Leaves(all, r)
        decreases more, |doc| - current
      {
        r, more, name := ReadMember(name);
      }
    }

    /** One turn of the loop of `readObject`, up to the colon. */
    method ReadMember(last: Bytes) returns (r: Status, more: bool, name: Bytes)
      requires Valid() && nodes != [] && nodes[|nodes| - 1].Obj?
      modifies this
      decreases |doc| - current, 2
      ensures var all := ReadMembers(decodeDouble, doc, old(current), |old(nodes)|,
                                     old(nodes)[|old(nodes)| - 1].members, last);
              if more then GoesOnWithObject(all, name) else Leaves(all, r)
    {
      hide ReadMembers, MemberOutcome, Recover, ReadSkippingComments, ReadToken, DecodeBody, TokenAt, SkipSpaces;
      MembersUnfold(decodeDouble, doc, current, |nodes|, nodes[|nodes| - 1].members, last);
      more := false;
      name := last;
      var tokenName := NextSkippingComments();
      if tokenName.kind == ObjectEnd && name == [] {
        r := Succeeded;
        return;
      }
      if tokenName.kind != String {
        r := AddErrorAndRecover(MissingNameOrBrace, ObjectEnd);
        return;
      }
      var key := DecodeString(doc, tokenName.start, tokenName.end);
      if !key.Text? {
        r := AddErrorAndRecover(BadString(key), ObjectEnd);
        return;
      }
      name := key.text;
      var colon := NextToken();
      if colon.kind != MemberSeparator {
        r := AddErrorAndRecover(MissingColon, ObjectEnd);
        return;
      }
      r, more := ReadMemberValue(name);
    }

    /** The rest of the turn: the value and the comma. */
    method ReadMemberValue(name: Bytes) returns (r: Status, more: bool)
      requires Valid() && nodes != [] && nodes[|nodes| - 1].Obj?
      modifies this
      decreases |doc| - current, 2
      ensures var all := MemberOutcome(decodeDouble, doc, old(current), |old(nodes)|,
                                       old(nodes)[|old(nodes)| - 1].members, name);
              if more then GoesOnWithObject(all, name) else Leaves(all, r)
    {
      hide AfterMember, ReadValue, Recover, Lookup, Put, ReadMembers;
      more := false;
      var top := |nodes| - 1;
      nodes := nodes + [Lookup(nodes[top].members, name)];
      r := Value();
      if r == Threw {
        return;
      }
      nodes := nodes[..top] + [Obj(Put(nodes[top].members, name, nodes[top + 1]))];
      if r == Failed {
        RecoverFromError(ObjectEnd);
        return;
      }
      r, more := NextMember(name);
    }

    /** The end of that loop: a comma, a closing brace or an error. */
    method NextMember(name: Bytes) returns (r: Status, more: bool)
      requires Valid() && nodes != [] && nodes[|nodes| - 1].Obj?
      modifies this
      ensures var all := AfterMember(decodeDouble, doc, old(current), |old(nodes)|,
                                     old(nodes)[|old(nodes)| - 1].members, name);
              if more then GoesOnWithObject(all, name) else Leaves(all, r)
    {
      hide ReadMembers, Recover, ReadSkippingComments, ReadToken;
      r, more := Succeeded, false;
      var comma := NextToken();
      if comma.kind != ObjectEnd && comma.kind != ArraySeparator && comma.kind != Comment {
        r := AddErrorAndRecover(MissingCommaOrBrace, ObjectEnd);
        return;
      }
      if comma.kind == Comment {
        comma := NextSkippingComments();
      }
      more := comma.kind != ObjectEnd;
    }

    /** `parse`.  It ends on every document, with the cursor inside it and the
        stack back to the root, unless the nesting is too deep. */
    method ParseDocument(root: Value) returns (r: Status)
      modifies this
      ensures Valid()
      ensures var o := Parse(decodeDouble, doc, root);
              && (r == Threw <==> o.StackLimit?)
              && (o.Done? ==> (r == Succeeded <==> o.ok) && nodes == [o.value] && errors == o.errors)
      ensures r != Threw ==> |errors| == if r == Succeeded then 0 else 1
      // Success exactly on the documents that a JSON text of at most 1000 levels begins.
      ensures r == Succeeded <==>
              exists t :: JsonText.Begins(decodeDouble, t, doc) && JsonText.Levels(t.node) <= 1000
      ensures forall t :: JsonText.Begins(decodeDouble, t, doc) && JsonText.Levels(t.node) <= 1000 ==>
                nodes == [JsonText.Meaning(decodeDouble, t.node)]
    {
      hide JsonText.Begins, JsonText.Levels, JsonText.Meaning;
      JsonLanguage.ParseIff(decodeDouble, doc, root);
      current, errors := 0, [];
      nodes := [root];
      r := Value();
      if r != Threw {
        var _ := NextSkippingComments();
      }
    }
  }
}
