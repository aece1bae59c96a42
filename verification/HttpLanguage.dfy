/**
  The language of the HTTP request parser: exactly which byte strings it accepts at
  their last byte, and as which request.
 */
module HttpLanguage {
  import opened JsonValue
  import opened JsonNumber
  import opened Http

  // ----- Request texts ----------------------------------------------------------------------

  /** A folded line: blanks, and the text that is appended to the value. */
  datatype Fold = Fold(blanks: Bytes, rest: Bytes)

  datatype Field = Field(name: Bytes, value: Bytes, folds: seq<Fold>)

  /** The parts of a request text; the version numbers are digit strings. */
  datatype Text = Text(method_: Bytes, uri: Bytes, major: Bytes, minor: Bytes, fields: seq<Field>, body: Bytes)

  predicate IsBlank(b: Byte) {
    b == SP || b == HT
  }

  predicate IsFold(f: Fold) {
    f.blanks != [] && (forall k :: 0 <= k < |f.blanks| ==> IsBlank(f.blanks[k])) && NoCtl(f.rest)
    && (f.rest != [] ==> f.rest[0] != SP)
  }

  predicate AreFolds(fs: seq<Fold>) {
    forall k :: 0 <= k < |fs| ==> IsFold(fs[k])
  }

  predicate IsField(f: Field) {
    IsToken(f.name) && NoCtl(f.value) && AreFolds(f.folds)
  }

  predicate AreFields(fs: seq<Field>) {
    forall k :: 0 <= k < |fs| ==> IsField(fs[k])
  }

  predicate IsNumber(ds: Bytes) {
    ds != [] && AllDigits(ds)
  }

  /** Everything but the length of the body. */
  predicate IsHead(t: Text) {
    && IsToken(t.method_) && NoCtl(t.uri) && NoSpace(t.uri) && IsNumber(t.major) && IsNumber(t.minor)
    && AreFields(t.fields)
  }

  predicate IsText(t: Text) {
    IsHead(t) && Lengths(Headers(t.fields)) == Value(|t.body|)
  }

  // ----- How it is written --------------------------------------------------------------------

  function FoldText(f: Fold): Bytes {
    f.blanks + f.rest + [CR, LF]
  }

  function FoldsText(fs: seq<Fold>): Bytes {
    if fs == [] then [] else FoldText(fs[0]) + FoldsText(fs[1..])
  }

  function FieldText(f: Field): Bytes {
    PrintHeader(Header(f.name, f.value)) + FoldsText(f.folds)
  }

  function FieldsText(fs: seq<Field>): Bytes {
    if fs == [] then [] else FieldText(fs[0]) + FieldsText(fs[1..])
  }

  /** Up to the carriage return of the empty line. */
  function HeadText(t: Text): Bytes {
    LineText(t.method_, t.uri, t.major, t.minor) + (FieldsText(t.fields) + [CR])
  }

  function Render(t: Text): Bytes {
    HeadText(t) + ([LF] + t.body)
  }

  // ----- What it means --------------------------------------------------------------------------

  function Unfolded(value: Bytes, fs: seq<Fold>): Bytes
    decreases |fs|
  {
    if fs == [] then value else Unfolded(value + fs[0].rest, fs[1..])
  }

  function HeaderOf(f: Field): Header {
    Header(f.name, Unfolded(f.value, f.folds))
  }

  function Headers(fs: seq<Field>): seq<Header> {
    if fs == [] then [] else [HeaderOf(fs[0])] + Headers(fs[1..])
  }

  function Meaning(t: Text): Request
    requires IsHead(t)
  {
    Request(t.method_, t.uri, Decimal(t.major), Decimal(t.minor), Headers(t.fields), |t.body|, t.body)
  }

  // ----- Every request text is accepted ------------------------------------------------------------

  lemma GoesNowhere(p: Parser)
    requires Sound(p)
    ensures Goes(p, [], p)
  {
  }

  lemma {:induction false} GoesFolds(p: Parser, fs: seq<Fold>)
    requires p.mode == HeaderLineStart && p.req.headers != [] && AreFolds(fs)
    ensures Goes(p, FoldsText(fs), p.(req := WithValue(p.req, Unfolded(p.req.headers[|p.req.headers| - 1].value, fs))))
    decreases |fs|
  {
    hide *;
    FoldsStep(p, fs);
    if fs == [] {
      LineStarts(p);
      GoesNowhere(p);
    } else {
      var f, v := fs[0], p.req.headers[|p.req.headers| - 1].value;
      var q := p.(req := WithValue(p.req, v + f.rest));
      GoesFold(p, f);
      GoesFolds(q, fs[1..]);
      GoesOn(p, FoldText(f), q, FoldsText(fs[1..]), p.(req := WithValue(p.req, Unfolded(v, fs))));
    }
  }

  lemma FoldsStep(p: Parser, fs: seq<Fold>)
    requires p.req.headers != [] && AreFolds(fs)
    ensures var v := p.req.headers[|p.req.headers| - 1].value;
            && (fs == [] ==> FoldsText(fs) == [] && WithValue(p.req, Unfolded(v, fs)) == p.req)
            && (fs != [] ==>
                  var r := WithValue(p.req, v + fs[0].rest);
                  && IsFold(fs[0]) && AreFolds(fs[1..]) && FoldsText(fs) == FoldText(fs[0]) + FoldsText(fs[1..])
                  && r.headers != [] && r.headers[|r.headers| - 1].value == v + fs[0].rest
                  && WithValue(r, Unfolded(v + fs[0].rest, fs[1..])) == WithValue(p.req, Unfolded(v, fs)))
  {
    hide IsFold, FoldText;
    var v := p.req.headers[|p.req.headers| - 1].value;
    if fs == [] {
      assert WithValue(p.req, v) == p.req;
    } else {
      var r := WithValue(p.req, v + fs[0].rest);
      assert WithValue(r, Unfolded(v, fs)).headers == WithValue(p.req, Unfolded(v, fs)).headers;
    }
  }

  lemma GoesFold(p: Parser, f: Fold)
    requires p.mode == HeaderLineStart && p.req.headers != [] && IsFold(f)
    ensures Goes(p, FoldText(f), p.(req := WithValue(p.req, p.req.headers[|p.req.headers| - 1].value + f.rest)))
  {
    hide Feed, Step, Goes, WithValue, NoCtl;
    GoesFolded(p, f.blanks, f.rest);
  }

  lemma GoesField(p: Parser, f: Field)
    requires p.mode == HeaderLineStart && IsField(f)
    ensures Goes(p, FieldText(f), p.(req := p.req.(headers := p.req.headers + [HeaderOf(f)])))
  {
    hide Feed, Step, Goes, PrintHeader, FoldsText, Unfolded, AreFolds, IsToken, NoCtl;
    var h := Header(f.name, f.value);
    var q := p.(req := p.req.(headers := p.req.headers + [h]));
    GoesHeader(p, h);
    GoesFolds(q, f.folds);
    var r := p.(req := p.req.(headers := p.req.headers + [HeaderOf(f)]));
    assert q.(req := WithValue(q.req, Unfolded(f.value, f.folds))) == r;
    GoesOn(p, PrintHeader(h), q, FoldsText(f.folds), r);
  }

  lemma {:induction false} GoesFields(p: Parser, fs: seq<Field>)
    requires p.mode == HeaderLineStart && AreFields(fs)
    ensures Goes(p, FieldsText(fs), p.(req := p.req.(headers := p.req.headers + Headers(fs))))
    decreases |fs|
  {
    hide *;
    FieldsStep(fs);
    var hs := p.req.headers;
    if fs == [] {
      assert hs + [] == hs;
      LineStarts(p);
      GoesNowhere(p);
    } else {
      var h := HeaderOf(fs[0]);
      var q := p.(req := p.req.(headers := hs + [h]));
      GoesField(p, fs[0]);
      GoesFields(q, fs[1..]);
      assert hs + [h] + Headers(fs[1..]) == hs + ([h] + Headers(fs[1..]));
      GoesOn(p, FieldText(fs[0]), q, FieldsText(fs[1..]), p.(req := p.req.(headers := hs + Headers(fs))));
    }
  }

  lemma LineStarts(p: Parser)
    requires p.mode == HeaderLineStart
    ensures Sound(p)
  {
  }

  lemma FieldsStep(fs: seq<Field>)
    requires AreFields(fs)
    ensures fs == [] ==> FieldsText(fs) == [] && Headers(fs) == []
    ensures fs != [] ==> IsField(fs[0]) && AreFields(fs[1..])
    ensures fs != [] ==> FieldsText(fs) == FieldText(fs[0]) + FieldsText(fs[1..])
    ensures fs != [] ==> Headers(fs) == [HeaderOf(fs[0])] + Headers(fs[1..])
  {
    hide IsField, FieldText, HeaderOf;
  }

  /** The parser behind the carriage return of the empty line. */
  function AfterHead(t: Text): Parser
    requires IsHead(t)
  {
    FRESH.(mode := Newline3, req := Meaning(t).(contentLength := 0, content := []))
  }

  lemma GoesHeadText(t: Text)
    requires IsHead(t)
    ensures Goes(FRESH, HeadText(t), AfterHead(t))
  {
    hide Feed, Goes, LineText, FieldsText, Headers, AreFields, IsToken, NoCtl, NoSpace, AllDigits, Decimal;
    var line := FRESH.req.(method_ := t.method_, uri := t.uri, major := Decimal(t.major), minor := Decimal(t.minor));
    var p := FRESH.(mode := HeaderLineStart, req := line);
    GoesLineText(t.method_, t.uri, t.major, t.minor);
    GoesFields(p, t.fields);
    var q := p.(req := line.(headers := Headers(t.fields)));
    assert [] + Headers(t.fields) == Headers(t.fields);
    GoesEmptyLine(q);
    GoesOn(p, FieldsText(t.fields), q, [CR], q.(mode := Newline3));
    GoesOn(FRESH, LineText(t.method_, t.uri, t.major, t.minor), p, FieldsText(t.fields) + [CR], q.(mode := Newline3));
  }

  lemma GoesEmptyLine(p: Parser)
    requires p.mode == HeaderLineStart
    ensures Goes(p, [CR], p.(mode := Newline3))
  {
    hide Feed, Goes;
    GoesOne(p, CR);
  }

  /** A request text is accepted at its last byte, as the request it means. */
  lemma TextAccepted(t: Text)
    requires IsText(t)
    ensures Feed(FRESH, Render(t)).verdict == Good && Feed(FRESH, Render(t)).used == |Render(t)|
    ensures Feed(FRESH, Render(t)).p.req == Meaning(t)
  {
    hide Feed, HeadText, Lengths, IsHead, Headers, Goes;
    GoesHeadText(t);
    GoesBody(AfterHead(t), t.body);
    GoesThen(FRESH, HeadText(t), AfterHead(t), [LF] + t.body);
  }

  lemma GoesThen(p: Parser, w: Bytes, q: Parser, rest: Bytes)
    requires Goes(p, w, q) && Sound(q)
    ensures Sound(p)
    ensures Feed(p, w + rest) == var f := Feed(q, rest); Fed(f.p, f.verdict, |w| + f.used)
  {
    hide Feed, Sound;
    FeedJoin(p, w, rest);
  }

  // ----- Nothing else is -----------------------------------------------------------------------------

  /** The verdict `good` comes with the last byte. */
  ghost predicate Ends(p: Parser, bs: Bytes) {
    Sound(p) && Feed(p, bs).verdict == Good && Feed(p, bs).used == |bs|
  }

  /** There is a next byte; it is the last one, or the rest ends in the next state. */
  lemma EndsStep(p: Parser, bs: Bytes)
    requires Ends(p, bs)
    ensures Sound(p) && bs != []
    ensures var (q, v) := Step(p, bs[0]);
            (v == Good && bs == [bs[0]]) || (v == Indeterminate && Ends(q, bs[1..]))
  {
    hide Step, Sound;
    FeedFirst(p, bs);
    Cons(bs);
  }

  lemma {:induction false} MethodRest(p: Parser, bs: Bytes) returns (w: Bytes, q: Parser, rest: Bytes)
    requires p.mode == Method && Ends(p, bs)
    ensures bs == w + [SP] + rest && forall k :: 0 <= k < |w| ==> IsTokenByte(w[k])
    ensures Ends(q, rest) && q.mode == Uri && q.req.headers == p.req.headers
    decreases |bs|
  {
    hide Ends, IsTokenByte;
    EndsStep(p, bs);
    var b, next := bs[0], Step(p, bs[0]).0;
    if b == SP {
      w, q, rest := [], next, bs[1..];
    } else {
      var more;
      more, q, rest := MethodRest(next, bs[1..]);
      w := [b] + more;
      assert bs == [b] + bs[1..];
    }
  }

  lemma {:induction false} UriRest(p: Parser, bs: Bytes) returns (w: Bytes, q: Parser, rest: Bytes)
    requires p.mode == Uri && Ends(p, bs)
    ensures bs == w + [SP] + rest && NoCtl(w) && NoSpace(w)
    ensures Ends(q, rest) && q.mode == VersionH && q.req.headers == p.req.headers
    decreases |bs|
  {
    hide Ends, IsCtl;
    EndsStep(p, bs);
    var b, next := bs[0], Step(p, bs[0]).0;
    if b == SP {
      w, q, rest := [], next, bs[1..];
    } else {
      var more;
      more, q, rest := UriRest(next, bs[1..]);
      w := [b] + more;
      assert bs == [b] + bs[1..];
    }
  }

  /** One expected byte. */
  lemma OneByte(p: Parser, bs: Bytes, b: Byte) returns (q: Parser, rest: Bytes)
    requires Ends(p, bs)
    requires forall c :: c != b ==> Step(p, c).1 == Bad
    requires Step(p, b).1 == Indeterminate
    ensures bs == [b] + rest && Sound(p) && q == Step(p, b).0 && Ends(q, rest)
  {
    hide Ends, Step, Sound;
    EndsStep(p, bs);
    Cons(bs);
    q, rest := Step(p, b).0, bs[1..];
  }

  lemma VersionRest(p: Parser, bs: Bytes) returns (q: Parser, rest: Bytes)
    requires p.mode == VersionH && Ends(p, bs)
    ensures bs == [72, 84, 84, 80, 47] + rest
    ensures Ends(q, rest) && q.mode == MajorStart && q.req.headers == p.req.headers
  {
    hide Ends;
    var p1, b1 := OneByte(p, bs, 72);
    var p2, b2 := OneByte(p1, b1, 84);
    var p3, b3 := OneByte(p2, b2, 84);
    var p4, b4 := OneByte(p3, b3, 80);
    q, rest := OneByte(p4, b4, 47);
  }

  lemma {:induction false} MajorRest(p: Parser, bs: Bytes) returns (w: Bytes, q: Parser, rest: Bytes)
    requires p.mode in {MajorStart, Major} && Ends(p, bs)
    ensures bs == w + [46] + rest && AllDigits(w) && (p.mode == MajorStart ==> w != [])
    ensures Ends(q, rest) && q.mode == MinorStart && q.req.headers == p.req.headers
    decreases |bs|
  {
    hide Ends, IsDigit;
    EndsStep(p, bs);
    var b, next := bs[0], Step(p, bs[0]).0;
    if p.mode == Major && b == 46 {
      w, q, rest := [], next, bs[1..];
    } else {
      var more;
      more, q, rest := MajorRest(next, bs[1..]);
      w := [b] + more;
      assert bs == [b] + bs[1..];
    }
  }

  lemma {:induction false} MinorRest(p: Parser, bs: Bytes) returns (w: Bytes, q: Parser, rest: Bytes)
    requires p.mode in {MinorStart, Minor} && Ends(p, bs)
    ensures bs == w + [CR] + rest && AllDigits(w) && (p.mode == MinorStart ==> w != [])
    ensures Ends(q, rest) && q.mode == Newline1 && q.req.headers == p.req.headers
    decreases |bs|
  {
    hide Ends, IsDigit;
    EndsStep(p, bs);
    var b, next := bs[0], Step(p, bs[0]).0;
    if p.mode == Minor && b == CR {
      w, q, rest := [], next, bs[1..];
    } else {
      var more;
      more, q, rest := MinorRest(next, bs[1..]);
      w := [b] + more;
      assert bs == [b] + bs[1..];
    }
  }

  /** The request line. */
  lemma LineRest(bs: Bytes) returns (m: Bytes, u: Bytes, major: Bytes, minor: Bytes, q: Parser, rest: Bytes)
    requires Ends(FRESH, bs)
    ensures bs == LineText(m, u, major, minor) + rest
    ensures IsToken(m) && NoCtl(u) && NoSpace(u) && IsNumber(major) && IsNumber(minor)
    ensures Ends(q, rest) && q.mode == HeaderLineStart && q.req.headers == []
  {
    var p1, b1;
    m, p1, b1 := TokenRest(bs);
    hide Ends, IsToken, NoCtl, NoSpace, AllDigits;
    var p2, b2, p3, b3, p4, b4, p5, b5;
    u, p2, b2 := UriRest(p1, b1);
    p3, b3 := VersionRest(p2, b2);
    major, p4, b4 := MajorRest(p3, b3);
    minor, p5, b5 := MinorRest(p4, b4);
    q, rest := OneByte(p5, b5, LF);
    JoinLine(bs, m, u, major, minor, b1, b2, b3, b4, b5, rest);
  }

  lemma TokenRest(bs: Bytes) returns (m: Bytes, q: Parser, rest: Bytes)
    requires Ends(FRESH, bs)
    ensures bs == m + [SP] + rest && IsToken(m)
    ensures Ends(q, rest) && q.mode == Uri && q.req.headers == []
  {
    hide Ends, IsTokenByte;
    EndsStep(FRESH, bs);
    var more;
    more, q, rest := MethodRest(Step(FRESH, bs[0]).0, bs[1..]);
    m := [bs[0]] + more;
    assert bs == [bs[0]] + bs[1..];
  }

  lemma JoinLine(bs: Bytes, m: Bytes, u: Bytes, major: Bytes, minor: Bytes, b1: Bytes, b2: Bytes, b3: Bytes, b4: Bytes,
                 b5: Bytes, rest: Bytes)
    requires bs == m + [SP] + b1 && b1 == u + [SP] + b2 && b2 == [72, 84, 84, 80, 47] + b3
    requires b3 == major + [46] + b4 && b4 == minor + [CR] + b5 && b5 == [LF] + rest
    ensures bs == LineText(m, u, major, minor) + rest
  {
    JoinVersion(b2, major, minor, b3, b4, b5, rest);
    var tail := major + [46] + minor + [CR, LF];
    assert b1 == u + [SP, 72, 84, 84, 80, 47] + (tail + rest);
    assert m + [SP] + u + [SP, 72, 84, 84, 80, 47] + tail == LineText(m, u, major, minor);
  }

  lemma JoinVersion(b2: Bytes, major: Bytes, minor: Bytes, b3: Bytes, b4: Bytes, b5: Bytes, rest: Bytes)
    requires b2 == [72, 84, 84, 80, 47] + b3 && b3 == major + [46] + b4 && b4 == minor + [CR] + b5 && b5 == [LF] + rest
    ensures b2 == [72, 84, 84, 80, 47] + (major + [46] + minor + [CR, LF] + rest)
  {
    assert b4 == minor + [CR, LF] + rest;
    assert b3 == major + [46] + minor + [CR, LF] + rest;
  }

  /** The rest of a header value and the end of its line. */
  lemma {:induction false} ValueRest(p: Parser, bs: Bytes) returns (w: Bytes, q: Parser, rest: Bytes)
    requires p.mode == HeaderValue && Ends(p, bs)
    ensures bs == w + [CR, LF] + rest && NoCtl(w)
    ensures Ends(q, rest) && q.mode == HeaderLineStart && q.req.headers != []
    decreases |bs|
  {
    hide Ends, IsCtl;
    EndsStep(p, bs);
    var b, next := bs[0], Step(p, bs[0]).0;
    if b == CR {
      q, rest := OneByte(next, bs[1..], LF);
      w := [];
      assert bs == [CR] + ([LF] + rest);
    } else {
      var more;
      more, q, rest := ValueRest(next, bs[1..]);
      w := [b] + more;
      assert bs == [b] + bs[1..];
    }
  }

  lemma {:induction false} NameRest(p: Parser, bs: Bytes) returns (w: Bytes, q: Parser, rest: Bytes)
    requires p.mode == HeaderName && Ends(p, bs)
    ensures bs == w + [58, SP] + rest && forall k :: 0 <= k < |w| ==> IsTokenByte(w[k])
    ensures Ends(q, rest) && q.mode == HeaderValue
    decreases |bs|
  {
    hide Ends, IsTokenByte;
    EndsStep(p, bs);
    var b, next := bs[0], Step(p, bs[0]).0;
    if b == 58 {
      q, rest := OneByte(next, bs[1..], SP);
      w := [];
      assert bs == [58] + ([SP] + rest);
    } else {
      var more;
      more, q, rest := NameRest(next, bs[1..]);
      w := [b] + more;
      assert bs == [b] + bs[1..];
    }
  }

  /** The rest of a folded line. */
  lemma {:induction false} FoldRest(p: Parser, bs: Bytes) returns (f: Fold, q: Parser, rest: Bytes)
    requires p.mode == HeaderLws && Ends(p, bs)
    ensures bs == FoldText(f) + rest && (forall k :: 0 <= k < |f.blanks| ==> IsBlank(f.blanks[k]))
    ensures NoCtl(f.rest) && (f.rest != [] ==> f.rest[0] != SP)
    ensures Ends(q, rest) && q.mode == HeaderLineStart && q.req.headers != []
    decreases |bs|
  {
    hide Ends, IsCtl;
    EndsStep(p, bs);
    var b, next := bs[0], Step(p, bs[0]).0;
    Cons(bs);
    if b == CR {
      q, rest := OneByte(next, bs[1..], LF);
      f := Fold([], []);
    } else if IsBlank(b) {
      var g;
      g, q, rest := FoldRest(next, bs[1..]);
      f := Fold([b] + g.blanks, g.rest);
      FoldJoin(b, g, rest);
    } else {
      var w;
      w, q, rest := ValueRest(next, bs[1..]);
      f := Fold([], [b] + w);
    }
  }

  lemma FoldJoin(b: Byte, g: Fold, rest: Bytes)
    ensures FoldText(Fold([b] + g.blanks, g.rest)) + rest == [b] + (FoldText(g) + rest)
  {
    assert [b] + g.blanks + g.rest == [b] + (g.blanks + g.rest);
  }

  /** The header lines up to the empty one: folded lines of the header before, and then headers. */
  lemma {:induction false} LinesRest(p: Parser, bs: Bytes)
    returns (folds: seq<Fold>, fields: seq<Field>, q: Parser, rest: Bytes)
    requires p.mode == HeaderLineStart && Ends(p, bs)
    ensures bs == FoldsText(folds) + (FieldsText(fields) + [CR]) + rest && AreFolds(folds) && AreFields(fields)
    ensures p.req.headers == [] ==> folds == []
    ensures Ends(q, rest) && q.mode == Newline3
    decreases |bs|
  {
    hide *;
    var b := LineStart(p, bs);
    if b == CR {
      q, rest := EmptyLine(p, bs);
      folds, fields := [], [];
      NoLines(bs, rest);
    } else if IsBlank(b) {
      var f, p', tail := FoldedLine(p, bs);
      var more;
      more, fields, q, rest := LinesRest(p', tail);
      folds := [f] + more;
      MoreFolds(bs, f, more, FieldsText(fields) + [CR], tail, rest);
    } else {
      var name, value, p', tail := HeaderLine(p, bs);
      var inner, more;
      inner, more, q, rest := LinesRest(p', tail);
      folds, fields := [], [Field(name, value, inner)] + more;
      MoreFields(bs, name, value, inner, more, tail, rest);
    }
  }

  lemma LineStart(p: Parser, bs: Bytes) returns (b: Byte)
    requires p.mode == HeaderLineStart && Ends(p, bs)
    ensures bs != [] && b == bs[0]
    ensures b != CR && IsBlank(b) ==> p.req.headers != []
  {
    hide Ends;
    EndsStep(p, bs);
    b := bs[0];
  }

  lemma EmptyLine(p: Parser, bs: Bytes) returns (q: Parser, rest: Bytes)
    requires p.mode == HeaderLineStart && Ends(p, bs) && bs != [] && bs[0] == CR
    ensures bs == [CR] + rest && Ends(q, rest) && q.mode == Newline3
  {
    hide Ends;
    EndsStep(p, bs);
    Cons(bs);
    q, rest := Step(p, CR).0, bs[1..];
  }

  lemma FoldedLine(p: Parser, bs: Bytes) returns (f: Fold, q: Parser, rest: Bytes)
    requires p.mode == HeaderLineStart && Ends(p, bs) && bs != [] && IsBlank(bs[0])
    ensures bs == FoldText(f) + rest && IsFold(f) && |rest| < |bs|
    ensures Ends(q, rest) && q.mode == HeaderLineStart && q.req.headers != []
  {
    hide Ends, NoCtl;
    EndsStep(p, bs);
    Cons(bs);
    var g;
    g, q, rest := FoldRest(Step(p, bs[0]).0, bs[1..]);
    f := Fold([bs[0]] + g.blanks, g.rest);
    FoldJoin(bs[0], g, rest);
  }

  lemma HeaderLine(p: Parser, bs: Bytes) returns (name: Bytes, value: Bytes, q: Parser, rest: Bytes)
    requires p.mode == HeaderLineStart && Ends(p, bs) && bs != [] && bs[0] != CR && !IsBlank(bs[0])
    ensures bs == PrintHeader(Header(name, value)) + rest && IsToken(name) && NoCtl(value) && |rest| < |bs|
    ensures Ends(q, rest) && q.mode == HeaderLineStart && q.req.headers != []
  {
    hide Ends, NoCtl, IsTokenByte;
    EndsStep(p, bs);
    Cons(bs);
    var more, p1, b1 := NameRest(Step(p, bs[0]).0, bs[1..]);
    value, q, rest := ValueRest(p1, b1);
    name := [bs[0]] + more;
    assert bs == name + [58, SP] + (value + [CR, LF] + rest);
  }

  lemma NoLines(bs: Bytes, rest: Bytes)
    requires bs == [CR] + rest
    ensures bs == FoldsText([]) + (FieldsText([]) + [CR]) + rest && AreFolds([]) && AreFields([])
  {
  }

  lemma MoreFolds(bs: Bytes, f: Fold, more: seq<Fold>, lines: Bytes, tail: Bytes, rest: Bytes)
    requires bs == FoldText(f) + tail && tail == FoldsText(more) + lines + rest && IsFold(f) && AreFolds(more)
    ensures bs == FoldsText([f] + more) + lines + rest && AreFolds([f] + more)
  {
    hide FoldText, IsFold;
    assert ([f] + more)[1..] == more;
  }

  lemma MoreFields(bs: Bytes, name: Bytes, value: Bytes, inner: seq<Fold>, more: seq<Field>, tail: Bytes, rest: Bytes)
    requires bs == PrintHeader(Header(name, value)) + tail
    requires tail == FoldsText(inner) + (FieldsText(more) + [CR]) + rest
    requires IsToken(name) && NoCtl(value) && AreFolds(inner) && AreFields(more)
    ensures var all := [Field(name, value, inner)] + more;
            AreFields(all) && AreFolds([]) && bs == FoldsText([]) + (FieldsText(all) + [CR]) + rest
  {
    hide PrintHeader, IsToken, NoCtl, IsFold;
    var f := Field(name, value, inner);
    assert ([f] + more)[1..] == more;
    var a, b := PrintHeader(Header(name, value)), FoldsText(inner);
    hide FoldsText;
    FoldsNone();
    assert FieldsText([f] + more) == a + b + FieldsText(more);
    hide FieldsText;
    Regroup(a, b, FieldsText(more), rest);
  }

  lemma FoldsNone()
    ensures FoldsText([]) == []
  {
  }

  lemma Regroup(a: Bytes, b: Bytes, c: Bytes, rest: Bytes)
    ensures a + (b + (c + [CR]) + rest) == [] + (a + b + c + [CR]) + rest
  {
  }

  /** The body has the length that the headers announce. */
  lemma BodyRest(p: Parser, bs: Bytes) returns (body: Bytes)
    requires p.mode == Newline3 && Ends(p, bs)
    ensures bs == [LF] + body && Lengths(p.req.headers) == Value(|body|)
  {
    hide Ends, Lengths;
    EndsStep(p, bs);
    Cons(bs);
    body := bs[1..];
    if Lengths(p.req.headers) != Value(0) {
      ContentRest(Step(p, LF).0, body);
    }
  }

  lemma {:induction false} ContentRest(p: Parser, bs: Bytes)
    requires p.mode == Content && p.counter < p.req.contentLength && Ends(p, bs)
    ensures p.counter + |bs| == p.req.contentLength
    decreases |bs|
  {
    hide Ends;
    EndsStep(p, bs);
    if p.counter + 1 < p.req.contentLength { ContentRest(Step(p, bs[0]).0, bs[1..]); }
  }

  /** Whatever is accepted at its last byte is a request text. */
  lemma AcceptedText(bs: Bytes) returns (t: Text)
    requires Feed(FRESH, bs).verdict == Good && Feed(FRESH, bs).used == |bs|
    ensures IsText(t) && bs == Render(t)
  {
    assert Ends(FRESH, bs);
    hide *;
    var m, u, major, minor, p, lines := LineRest(bs);
    var folds, fields, q, tail := LinesRest(p, lines);
    t := Text(m, u, major, minor, fields, []);
    HeadSplit(t, bs, lines, folds, tail);
    GoesHeadText(t);
    EndsThen(FRESH, HeadText(t), AfterHead(t), tail);
    AfterHeadIs(t);
    var body := BodyRest(AfterHead(t), tail);
    t := t.(body := body);
    WithBody(t);
  }

  lemma HeadSplit(t: Text, bs: Bytes, lines: Bytes, folds: seq<Fold>, tail: Bytes)
    requires IsToken(t.method_) && NoCtl(t.uri) && NoSpace(t.uri) && IsNumber(t.major) && IsNumber(t.minor)
    requires AreFields(t.fields)
    requires bs == LineText(t.method_, t.uri, t.major, t.minor) + lines && folds == []
    requires lines == FoldsText(folds) + (FieldsText(t.fields) + [CR]) + tail
    ensures IsHead(t) && bs == HeadText(t) + tail
  {
    hide LineText, FieldsText, IsToken, NoCtl, NoSpace, IsNumber, AreFields;
  }

  lemma EndsThen(p: Parser, w: Bytes, q: Parser, rest: Bytes)
    requires Goes(p, w, q) && Sound(q) && Ends(p, w + rest)
    ensures Ends(q, rest)
  {
    hide Feed, Sound, Goes;
    GoesThen(p, w, q, rest);
  }

  lemma AfterHeadIs(t: Text)
    requires IsHead(t)
    ensures var p := AfterHead(t); Sound(p) && p.mode == Newline3 && p.req.headers == Headers(t.fields)
  {
    hide Headers, IsHead;
  }

  lemma WithBody(t: Text)
    requires IsHead(t.(body := [])) && Lengths(Headers(t.fields)) == Value(|t.body|)
    ensures IsText(t) && Render(t) == HeadText(t.(body := [])) + ([LF] + t.body)
  {
    hide Lengths, Headers, LineText, FieldsText, AreFields;
  }

  // ----- The length of the body --------------------------------------------------------------------------

  /** `std::stoul` reads `n`: after white space and a sign, the digits up to the first other character;
      a minus sign negates modulo 2^64. */
  ghost predicate Announces(v: Bytes, n: nat) {
    exists lead, sign, ds, rest :: AnnouncesBy(v, n, lead, sign, ds, rest)
  }

  ghost predicate AnnouncesBy(v: Bytes, n: nat, lead: Bytes, sign: Bytes, ds: Bytes, rest: Bytes) {
    && v == lead + sign + ds + rest
    && AllWhite(lead)
    && (sign == [] || sign == [43] || sign == [45])
    && ds != [] && DigitChars(ds) && (rest != [] ==> !(48 <= rest[0] <= 57))
    && Positional(ds) < 0x1_0000_0000_0000_0000
    && n == if sign == [45] && Positional(ds) > 0 then 0x1_0000_0000_0000_0000 - Positional(ds) else Positional(ds)
  }

  /** Tab, line feed, vertical tab, form feed, carriage return and space. */
  predicate AllWhite(bs: Bytes) {
    forall k :: 0 <= k < |bs| ==> 9 <= bs[k] <= 13 || bs[k] == 32
  }

  lemma WhiteCons(b: Byte, bs: Bytes)
    ensures AllWhite([b] + bs) <==> Http.IsSpace(b) && AllWhite(bs)
  {
    var all := [b] + bs;
    assert all[0] == b && forall k :: 0 <= k < |bs| ==> all[k + 1] == bs[k];
  }

  lemma {:induction false} SpacesSkipped(lead: Bytes, rest: Bytes)
    requires AllWhite(lead) && (rest != [] ==> !Http.IsSpace(rest[0]))
    ensures SkipSpaces(lead + rest) == rest
  {
    hide AllWhite;
    if lead == [] {
      assert lead + rest == rest;
    } else {
      assert lead == [lead[0]] + lead[1..];
      WhiteCons(lead[0], lead[1..]);
      SpacesSkipped(lead[1..], rest);
      assert (lead + rest)[1..] == lead[1..] + rest;
    }
  }

  lemma {:induction false} SkippedSpaces(v: Bytes) returns (lead: Bytes)
    ensures v == lead + SkipSpaces(v) && AllWhite(lead)
  {
    if v != [] && Http.IsSpace(v[0]) {
      hide AllWhite;
      var more := SkippedSpaces(v[1..]);
      WhiteCons(v[0], more);
      lead := [v[0]] + more;
      assert v == [v[0]] + v[1..];
    } else {
      lead := [];
    }
  }

  lemma {:induction false} DigitsTaken(ds: Bytes, rest: Bytes)
    requires DigitChars(ds) && (rest != [] ==> !(48 <= rest[0] <= 57))
    ensures LeadingDigits(ds + rest) == ds
  {
    if ds == [] {
      assert ds + rest == rest;
    } else {
      DigitsTaken(ds[1..], rest);
      assert (ds + rest)[1..] == ds[1..] + rest;
    }
  }

  lemma {:induction false} TakenDigits(v: Bytes) returns (rest: Bytes)
    ensures v == LeadingDigits(v) + rest && DigitChars(LeadingDigits(v)) && (rest != [] ==> !(48 <= rest[0] <= 57))
  {
    if v != [] && IsDigit(v[0]) {
      rest := TakenDigits(v[1..]);
      assert v == [v[0]] + v[1..];
    } else {
      rest := v;
      assert [] + v == v;
    }
  }

  lemma StoulIff(v: Bytes, n: nat)
    ensures Stoul(v) == Parsed.Number(n) <==> Announces(v, n)
  {
    hide AnnouncesBy, Stoul;
    if Stoul(v) == Parsed.Number(n) { StoulAnnounces(v, n); }
    if lead, sign, ds, rest :| AnnouncesBy(v, n, lead, sign, ds, rest) {
      AnnouncedStoul(v, n, lead, sign, ds, rest);
    }
  }

  lemma AnnouncedStoul(v: Bytes, n: nat, lead: Bytes, sign: Bytes, ds: Bytes, rest: Bytes)
    requires AnnouncesBy(v, n, lead, sign, ds, rest)
    ensures Stoul(v) == Parsed.Number(n)
  {
    hide SkipSpaces, LeadingDigits, Positional, Decimal;
    var t := sign + ds + rest;
    assert v == lead + t;
    assert t[0] == if sign == [] then ds[0] else sign[0];
    SpacesSkipped(lead, t);
    assert (if sign == [] then t else t[1..]) == ds + rest;
    DigitsTaken(ds, rest);
    PositionalIs(ds);
  }

  /** What is left of a number behind its sign. */
  function BehindSign(t: Bytes): Bytes {
    if t != [] && (t[0] == 45 || t[0] == 43) then t[1..] else t
  }

  lemma SignSplit(t: Bytes) returns (sign: Bytes)
    ensures t == sign + BehindSign(t) && (sign == [] || sign == [43] || sign == [45])
    ensures sign == [45] <==> t != [] && t[0] == 45
  {
    sign := if t != [] && (t[0] == 45 || t[0] == 43) then [t[0]] else [];
  }

  lemma StoulOf(v: Bytes, n: nat)
    requires Stoul(v) == Parsed.Number(n)
    ensures var t := SkipSpaces(v);
            var ds := LeadingDigits(BehindSign(t));
            && ds != [] && AllDigits(ds) && Decimal(ds) < 0x1_0000_0000_0000_0000
            && n == if t != [] && t[0] == 45 && Decimal(ds) > 0 then 0x1_0000_0000_0000_0000 - Decimal(ds)
                    else Decimal(ds)
  {
    hide SkipSpaces, LeadingDigits, Decimal, AllDigits;
  }

  lemma StoulAnnounces(v: Bytes, n: nat)
    requires Stoul(v) == Parsed.Number(n)
    ensures Announces(v, n)
  {
    hide *;
    var lead := SkippedSpaces(v);
    var t := SkipSpaces(v);
    var sign := SignSplit(t);
    var rest := TakenDigits(BehindSign(t));
    var ds := LeadingDigits(BehindSign(t));
    StoulOf(v, n);
    PositionalIs(ds);
    assert lead + (sign + (ds + rest)) == lead + sign + ds + rest;
    AnnouncesFold(v, n, lead, sign, ds, rest);
  }

  lemma AnnouncesFold(v: Bytes, n: nat, lead: Bytes, sign: Bytes, ds: Bytes, rest: Bytes)
    requires v == lead + sign + ds + rest && AllWhite(lead) && (sign == [] || sign == [43] || sign == [45])
    requires ds != [] && DigitChars(ds) && (rest != [] ==> !(48 <= rest[0] <= 57))
    requires Positional(ds) < 0x1_0000_0000_0000_0000
    requires n == if sign == [45] && Positional(ds) > 0 then 0x1_0000_0000_0000_0000 - Positional(ds)
             else Positional(ds)
    ensures Announces(v, n)
  {
    hide AllWhite, DigitChars, Positional;
    assert AnnouncesBy(v, n, lead, sign, ds, rest);
  }

  /** The headers announce a body of `n` bytes: by the last Content-Length, where all of them must be
      readable, or 0 without one. */
  ghost predicate BodyLength(hs: seq<Header>, n: nat) {
    && (forall k :: 0 <= k < |hs| && hs[k].name == Ascii("Content-Length") ==> exists m :: Announces(hs[k].value, m))
    && ((n == 0 && forall k :: 0 <= k < |hs| ==> hs[k].name != Ascii("Content-Length"))
        || exists k :: LastLength(hs, k) && Announces(hs[k].value, n))
  }

  ghost predicate LastLength(hs: seq<Header>, k: int) {
    && 0 <= k < |hs| && hs[k].name == Ascii("Content-Length")
    && forall j :: k < j < |hs| ==> hs[j].name != Ascii("Content-Length")
  }

  lemma {:induction false} LengthsIff(hs: seq<Header>, n: nat)
    ensures Lengths(hs) == Value(n) <==> BodyLength(hs, n)
    ensures Lengths(hs).Value? <==>
            forall k :: 0 <= k < |hs| && hs[k].name == Ascii("Content-Length") ==> exists m :: Announces(hs[k].value, m)
  {
    hide Announces, Ascii, Stoul;
    if hs != [] {
      var most, h := hs[..|hs| - 1], hs[|hs| - 1];
      assert hs == most + [h];
      LengthsIff(most, n);
      LengthAdds(Lengths(most), h, n);
      if h.name == Ascii("Content-Length") {
        assert LastLength(hs, |hs| - 1);
        assert forall k :: LastLength(hs, k) ==> k == |hs| - 1;
      } else {
        assert forall k :: LastLength(hs, k) <==> LastLength(most, k);
        assert forall k :: 0 <= k < |most| ==> hs[k] == most[k];
      }
    }
  }

  /** What one more header does to the length. */
  lemma LengthAdds(l: Length, h: Header, n: nat)
    ensures h.name != Ascii("Content-Length") ==> AddLength(l, h) == l
    ensures h.name == Ascii("Content-Length") && l.Value? ==>
              (AddLength(l, h) == Value(n) <==> Announces(h.value, n))
              && (AddLength(l, h).Value? <==> exists m :: Announces(h.value, m))
    ensures l.Raised? ==> AddLength(l, h) == l
  {
    hide Announces, Ascii, Stoul;
    StoulIff(h.value, n);
    if Stoul(h.value).Number? { StoulIff(h.value, Stoul(h.value).n); }
    forall m: nat | Announces(h.value, m) ensures Stoul(h.value).Number? { StoulIff(h.value, m); }
  }

  // ----- Request texts in terms of bytes ---------------------------------------------------------------

  /** A token of RFC 1945: letters, digits and `!#$%&'*+-.^_`|~`. */
  predicate IsWord(s: Bytes) {
    s != [] && forall k :: 0 <= k < |s| ==> IsTokenChar(s[k])
  }

  predicate IsTokenChar(b: Byte) {
    b == 33 || 35 <= b <= 39 || b in {42, 43, 45, 46} || 48 <= b <= 57 || 65 <= b <= 90 || 94 <= b <= 122 || b == 124
    || b == 126
  }

  /** No control character. */
  predicate IsPlain(s: Bytes) {
    forall k :: 0 <= k < |s| ==> 32 <= s[k] <= 126 || 128 <= s[k]
  }

  predicate IsFoldText(f: Fold) {
    && f.blanks != [] && (forall k :: 0 <= k < |f.blanks| ==> f.blanks[k] == 9 || f.blanks[k] == 32)
    && IsPlain(f.rest) && (f.rest != [] ==> f.rest[0] != 32)
  }

  predicate IsFieldText(f: Field) {
    IsWord(f.name) && IsPlain(f.value) && forall k :: 0 <= k < |f.folds| ==> IsFoldText(f.folds[k])
  }

  /** The texts of requests. */
  ghost predicate IsRequestText(t: Text) {
    && IsWord(t.method_) && IsPlain(t.uri) && 32 !in t.uri
    && t.major != [] && DigitChars(t.major) && t.minor != [] && DigitChars(t.minor)
    && (forall k :: 0 <= k < |t.fields| ==> IsFieldText(t.fields[k]))
    && BodyLength(Headers(t.fields), |t.body|)
  }

  function FoldsBytes(fs: seq<Fold>): Bytes {
    if fs == [] then [] else fs[0].blanks + fs[0].rest + [13, 10] + FoldsBytes(fs[1..])
  }

  function FieldsBytes(fs: seq<Field>): Bytes {
    if fs == [] then []
    else fs[0].name + [58, 32] + fs[0].value + [13, 10] + FoldsBytes(fs[0].folds) + FieldsBytes(fs[1..])
  }

  /** Method, space, URI, space, `HTTP/`, the version and CR LF; the fields; CR LF; the body. */
  function RequestBytes(t: Text): Bytes {
    t.method_ + [32] + t.uri + [32, 72, 84, 84, 80, 47] + t.major + [46] + t.minor + [13, 10]
      + FieldsBytes(t.fields) + [13, 10] + t.body
  }

  ghost function RequestOf(t: Text): Request
    requires DigitChars(t.major) && DigitChars(t.minor)
  {
    Request(t.method_, t.uri, Positional(t.major), Positional(t.minor), Headers(t.fields), |t.body|, t.body)
  }

  lemma WordIs(s: Bytes)
    ensures IsWord(s) <==> IsToken(s)
  {
    forall b: Byte ensures IsTokenChar(b) <==> IsTokenByte(b) { }
    hide IsTokenChar, IsTokenByte;
  }

  lemma PlainIs(s: Bytes)
    ensures IsPlain(s) <==> NoCtl(s)
  {
  }

  lemma FoldIs(f: Fold)
    ensures IsFoldText(f) <==> IsFold(f)
  {
    hide IsPlain, NoCtl;
    PlainIs(f.rest);
  }

  lemma FieldIs(f: Field)
    ensures IsFieldText(f) <==> IsField(f)
  {
    hide IsWord, IsToken, IsPlain, NoCtl, IsFoldText, IsFold;
    WordIs(f.name);
    PlainIs(f.value);
    forall k | 0 <= k < |f.folds| ensures IsFoldText(f.folds[k]) <==> IsFold(f.folds[k]) { FoldIs(f.folds[k]); }
  }

  lemma TextIs(t: Text)
    ensures IsRequestText(t) <==> IsText(t)
    ensures IsText(t) ==> Meaning(t) == RequestOf(t)
  {
    hide IsWord, IsToken, IsPlain, NoCtl, IsFieldText, IsField, BodyLength, Lengths, Headers, Positional, Decimal,
         DigitChars, AllDigits;
    WordIs(t.method_);
    PlainIs(t.uri);
    PositionalIs(t.major);
    PositionalIs(t.minor);
    LengthsIff(Headers(t.fields), |t.body|);
    forall k | 0 <= k < |t.fields| ensures IsFieldText(t.fields[k]) <==> IsField(t.fields[k]) { FieldIs(t.fields[k]); }
  }

  lemma {:induction false} FoldsBytesAre(fs: seq<Fold>)
    ensures FoldsBytes(fs) == FoldsText(fs)
  {
    if fs != [] { FoldsBytesAre(fs[1..]); }
  }

  lemma {:induction false} FieldsBytesAre(fs: seq<Field>)
    ensures FieldsBytes(fs) == FieldsText(fs)
  {
    if fs != [] {
      hide FoldsText, FoldsBytes;
      FieldsBytesAre(fs[1..]);
      FoldsBytesAre(fs[0].folds);
    }
  }

  lemma BytesAre(t: Text)
    ensures RequestBytes(t) == Render(t)
  {
    hide FieldsText, FieldsBytes;
    FieldsBytesAre(t.fields);
    var line, fields := LineText(t.method_, t.uri, t.major, t.minor), FieldsText(t.fields);
    assert RequestBytes(t) == line + fields + [13, 10] + t.body;
    hide LineText;
    assert line + fields + [13, 10] == line + (fields + [13]) + [10];
  }

  // ----- The language ------------------------------------------------------------------------------------

  /** A byte string is accepted at its last byte exactly when it is a request text. */
  lemma Language(bs: Bytes)
    ensures Feed(FRESH, bs).verdict == Good && Feed(FRESH, bs).used == |bs| <==>
            exists t :: IsRequestText(t) && bs == RequestBytes(t)
  {
    hide Feed, IsText, Render, IsRequestText, RequestBytes;
    if Feed(FRESH, bs).verdict == Good && Feed(FRESH, bs).used == |bs| {
      var t := AcceptedText(bs);
      TextIs(t);
      BytesAre(t);
    }
    if t :| IsRequestText(t) && bs == RequestBytes(t) {
      TextIs(t);
      BytesAre(t);
      TextAccepted(t);
    }
  }

  /** The parser says `good` exactly when some request text begins the input, and then it stops
      behind that text with the request it means. */
  lemma GoodIff(bs: Bytes)
    ensures Feed(FRESH, bs).verdict == Good <==> exists t :: IsRequestText(t) && RequestBytes(t) <= bs
    ensures forall t :: IsRequestText(t) && RequestBytes(t) <= bs ==>
              Feed(FRESH, bs).used == |RequestBytes(t)| && Feed(FRESH, bs).p.req == RequestOf(t)
  {
    hide Feed, IsText, Render, RequestBytes, IsRequestText, RequestOf, DigitChars;
    if Feed(FRESH, bs).verdict == Good {
      UsedPart(bs);
      var t := AcceptedText(bs[..Feed(FRESH, bs).used]);
      TextIs(t);
      BytesAre(t);
    }
    forall t | IsRequestText(t) && RequestBytes(t) <= bs
      ensures Feed(FRESH, bs).verdict == Good && Feed(FRESH, bs).used == |RequestBytes(t)|
      ensures DigitChars(t.major) && DigitChars(t.minor) && Feed(FRESH, bs).p.req == RequestOf(t)
    {
      BeginsInput(bs, t);
    }
  }

  lemma BeginsInput(bs: Bytes, t: Text)
    requires IsRequestText(t) && RequestBytes(t) <= bs
    ensures Feed(FRESH, bs).verdict == Good && Feed(FRESH, bs).used == |RequestBytes(t)|
    ensures DigitChars(t.major) && DigitChars(t.minor) && Feed(FRESH, bs).p.req == RequestOf(t)
  {
    hide Feed, IsText, Render, RequestBytes, IsPlain, IsWord, IsFieldText, BodyLength, DigitChars, Headers, Meaning,
         RequestOf;
    TextIs(t);
    BytesAre(t);
    TextAccepted(t);
    FeedJoin(FRESH, Render(t), bs[|Render(t)|..]);
    assert Render(t) + bs[|Render(t)|..] == bs;
  }

  /** The bytes up to the verdict decide. */
  lemma UsedPart(bs: Bytes)
    requires Feed(FRESH, bs).verdict == Good
    ensures var n := Feed(FRESH, bs).used;
            n <= |bs| && bs[..n] <= bs && Feed(FRESH, bs[..n]) == Feed(FRESH, bs) && |bs[..n]| == n
  {
    FedPart(FRESH, bs);
    hide Feed;
  }

  lemma {:induction false} FedPart(p: Parser, bs: Bytes)
    requires Sound(p) && Feed(p, bs).verdict != Indeterminate
    ensures Feed(p, bs[..Feed(p, bs).used]) == Feed(p, bs)
    decreases |bs|
  {
    hide Step;
    if bs != [] {
      var (q, v) := Step(p, bs[0]);
      var n := Feed(p, bs).used;
      assert bs[..n][0] == bs[0];
      if v == Indeterminate {
        FedPart(q, bs[1..]);
        assert bs[..n][1..] == bs[1..][..n - 1];
      }
    }
  }

  /** No request text begins with another one, and texts that look the same mean the same. */
  lemma PrefixFree(s: Text, t: Text)
    requires IsRequestText(s) && IsRequestText(t) && RequestBytes(s) <= RequestBytes(t)
    ensures RequestBytes(s) == RequestBytes(t) && DigitChars(s.major) && DigitChars(s.minor)
    ensures DigitChars(t.major) && DigitChars(t.minor) && RequestOf(s) == RequestOf(t)
  {
    hide Feed, RequestBytes, RequestOf, DigitChars, IsRequestText;
    BeginsInput(RequestBytes(t), s);
    BeginsInput(RequestBytes(t), t);
  }
}
