/**
  The byte-wise HTTP request parser as a state machine, the printed form of a
  request (sections 4.2 and 5.1 of RFC 1945), and their round trip in any chunking.
 */
module Http {
  import opened JsonValue
  import opened JsonNumber

  datatype Header = Header(name: Bytes, value: Bytes)

  datatype Request = Request(method_: Bytes, uri: Bytes, major: int, minor: int, headers: seq<Header>,
                             contentLength: nat, content: Bytes)

  datatype Mode =
    | MethodStart | Method | Uri
    | VersionH | VersionT1 | VersionT2 | VersionP | VersionSlash | MajorStart | Major | MinorStart | Minor
    | Newline1 | HeaderLineStart | HeaderLws | HeaderName | SpaceBeforeValue | HeaderValue | Newline2
    | Newline3 | Content

  /** The parser together with the request it fills. */
  datatype Parser = Parser(mode: Mode, counter: nat, req: Request)

  /** What `consume` returns; `Thrown` when `stoul` raises. */
  datatype Verdict = Good | Bad | Indeterminate | Thrown

  const SP: Byte := 32
  const HT: Byte := 9
  const CR: Byte := 13
  const LF: Byte := 10

  /** The bytes of a text of ASCII characters. */
  function Ascii(s: string): (r: Bytes)
    requires forall k :: 0 <= k < |s| ==> s[k] as int < 128
    ensures |r| == |s|
  {
    seq(|s|, k requires 0 <= k < |s| => s[k] as int)
  }

  predicate IsChar(c: Byte) { c <= 127 }

  predicate IsCtl(c: Byte) { c <= 31 || c == 127 }

  predicate IsTspecial(c: Byte) {
    c in {40, 41, 60, 62, 64, 44, 59, 58, 92, 34, 47, 91, 93, 63, 61, 123, 125, SP, HT}
  }

  predicate IsTokenByte(c: Byte) {
    IsChar(c) && !IsCtl(c) && !IsTspecial(c)
  }

  // ----- std::stoul ---------------------------------------------------------------------

  datatype Parsed = Number(n: nat) | Invalid | OutOfRange

  predicate IsSpace(c: Byte) { c == SP || 9 <= c <= 13 }

  function SkipSpaces(s: Bytes): Bytes {
    if s != [] && IsSpace(s[0]) then SkipSpaces(s[1..]) else s
  }

  function LeadingDigits(s: Bytes): (r: Bytes)
    ensures AllDigits(r)
  {
    if s != [] && IsDigit(s[0]) then [s[0]] + LeadingDigits(s[1..]) else []
  }

  /** Base 10 into 64 bits; a minus sign negates modulo 2^64. */
  function Stoul(s: Bytes): Parsed {
    var t := SkipSpaces(s);
    var minus := t != [] && t[0] == MINUS;
    var ds := LeadingDigits(if t != [] && (t[0] == MINUS || t[0] == 43) then t[1..] else t);
    if ds == [] then Invalid
    else if Decimal(ds) > MAX_LARGEST_UINT then OutOfRange
    else if minus && Decimal(ds) > 0 then Number(MAX_LARGEST_UINT + 1 - Decimal(ds))
    else Number(Decimal(ds))
  }

  /** The content length after the scan of the headers, or what it was when `stoul` raised. */
  datatype Length = Value(n: nat) | Raised(before: nat)

  function Lengths(hs: seq<Header>): Length {
    if hs == [] then Value(0)
    else AddLength(Lengths(hs[..|hs| - 1]), hs[|hs| - 1])
  }

  function AddLength(l: Length, h: Header): Length {
    if l.Raised? || h.name != Ascii("Content-Length") then l
    else match Stoul(h.value)
      case Number(n) => Value(n)
      case _ => Raised(l.n)
  }

  // ----- One byte ------------------------------------------------------------------------

  /** `headers.back()` is only taken where there is a header. */
  predicate Sound(p: Parser) {
    p.mode in {HeaderLws, HeaderName, SpaceBeforeValue, HeaderValue, Newline2} ==> p.req.headers != []
  }

  function Go(p: Parser, mode: Mode): (Parser, Verdict) {
    (p.(mode := mode), Indeterminate)
  }

  /** Goes on when the byte is the expected one. */
  function Expect(p: Parser, b: Byte, expected: Byte, mode: Mode): (Parser, Verdict) {
    if b == expected then Go(p, mode) else (p, Bad)
  }

  function PushName(r: Request, b: Byte): Request
    requires r.headers != []
  {
    var k := |r.headers| - 1;
    r.(headers := r.headers[k := r.headers[k].(name := r.headers[k].name + [b])])
  }

  function PushValue(r: Request, b: Byte): Request
    requires r.headers != []
  {
    var k := |r.headers| - 1;
    r.(headers := r.headers[k := r.headers[k].(value := r.headers[k].value + [b])])
  }

  /** `consume` before the headers. */
  function StepLine(p: Parser, b: Byte): (Parser, Verdict) {
    var r := p.req;
    match p.mode
    case MethodStart => if IsTokenByte(b) then Go(p.(req := r.(method_ := r.method_ + [b])), Method) else (p, Bad)
    case Method =>
      if b == SP then Go(p, Uri)
      else if IsTokenByte(b) then Go(p.(req := r.(method_ := r.method_ + [b])), Method)
      else (p, Bad)
    case Uri =>
      if b == SP then Go(p, VersionH)
      else if IsCtl(b) then (p, Bad)
      else Go(p.(req := r.(uri := r.uri + [b])), Uri)
    case VersionH => Expect(p, b, 72, VersionT1)
    case VersionT1 => Expect(p, b, 84, VersionT2)
    case VersionT2 => Expect(p, b, 84, VersionP)
    case VersionP => Expect(p, b, 80, VersionSlash)
    case VersionSlash => if b == 47 then Go(p.(req := r.(major := 0, minor := 0)), MajorStart) else (p, Bad)
    case MajorStart => if IsDigit(b) then Go(p.(req := r.(major := r.major * 10 + (b - ZERO))), Major) else (p, Bad)
    case Major =>
      if b == 46 then Go(p, MinorStart)
      else if IsDigit(b) then Go(p.(req := r.(major := r.major * 10 + (b - ZERO))), Major)
      else (p, Bad)
    case MinorStart => if IsDigit(b) then Go(p.(req := r.(minor := r.minor * 10 + (b - ZERO))), Minor) else (p, Bad)
    case Minor =>
      if b == CR then Go(p, Newline1)
      else if IsDigit(b) then Go(p.(req := r.(minor := r.minor * 10 + (b - ZERO))), Minor)
      else (p, Bad)
    case _ => (p, Bad)
  }

  /** The end of the headers: the content length decides whether a body follows. */
  function EndOfHeaders(p: Parser): (Parser, Verdict) {
    match Lengths(p.req.headers)
    case Raised(n) => (p.(req := p.req.(contentLength := n)), Thrown)
    case Value(n) =>
      var q := p.(counter := 0, req := p.req.(contentLength := n));
      if n == 0 then (q, Good) else Go(q, Content)
  }

  /** `consume` from the headers on. */
  function StepHeaders(p: Parser, b: Byte): (Parser, Verdict)
    requires Sound(p)
  {
    var r := p.req;
    match p.mode
    case Newline1 => Expect(p, b, LF, HeaderLineStart)
    case HeaderLineStart =>
      if b == CR then Go(p, Newline3)
      else if r.headers != [] && (b == SP || b == HT) then Go(p, HeaderLws)
      else if IsTokenByte(b) then Go(p.(req := r.(headers := r.headers + [Header([b], [])])), HeaderName)
      else (p, Bad)
    case HeaderLws =>
      if b == CR then Go(p, Newline2)
      else if b == SP || b == HT then (p, Indeterminate)
      else if IsCtl(b) then (p, Bad)
      else Go(p.(req := PushValue(r, b)), HeaderValue)
    case HeaderName =>
      if b == 58 then Go(p, SpaceBeforeValue)
      else if IsTokenByte(b) then (p.(req := PushName(r, b)), Indeterminate)
      else (p, Bad)
    case SpaceBeforeValue => Expect(p, b, SP, HeaderValue)
    case HeaderValue =>
      if b == CR then Go(p, Newline2)
      else if IsCtl(b) then (p, Bad)
      else (p.(req := PushValue(r, b)), Indeterminate)
    case Newline2 => Expect(p, b, LF, HeaderLineStart)
    case Newline3 => if b == LF then EndOfHeaders(p) else (p, Bad)
    case Content =>
      var q := p.(counter := p.counter + 1, req := r.(content := r.content + [b]));
      (q, if q.counter < r.contentLength then Indeterminate else Good)
    case _ => (p, Bad)
  }

  predicate InLine(m: Mode) {
    m in {MethodStart, Method, Uri, VersionH, VersionT1, VersionT2, VersionP, VersionSlash, MajorStart, Major,
          MinorStart, Minor}
  }

  /** `consume`. */
  function Step(p: Parser, b: Byte): (r: (Parser, Verdict))
    requires Sound(p)
    ensures Sound(r.0)
  {
    if InLine(p.mode) then StepLine(p, b) else StepHeaders(p, b)
  }

  // ----- Many bytes ------------------------------------------------------------------------

  datatype Fed = Fed(p: Parser, verdict: Verdict, used: nat)

  /** `parse`: up to the first verdict. */
  function Feed(p: Parser, bs: Bytes): (r: Fed)
    requires Sound(p)
    ensures Sound(r.p) && r.used <= |bs| && (r.verdict == Indeterminate ==> r.used == |bs|)
    decreases |bs|
  {
    if bs == [] then Fed(p, Indeterminate, 0)
    else
      var (q, v) := Step(p, bs[0]);
      if v != Indeterminate then Fed(q, v, 1)
      else var r := Feed(q, bs[1..]); Fed(r.p, r.verdict, r.used + 1)
  }

  /** The parser goes on with the second part where the first one left it. */
  lemma {:induction false} FeedJoin(p: Parser, a: Bytes, b: Bytes)
    requires Sound(p)
    ensures var f := Feed(p, a);
            Feed(p, a + b) ==
            if f.verdict == Indeterminate then var g := Feed(f.p, b); Fed(g.p, g.verdict, |a| + g.used) else f
    decreases |a|
  {
    if a == [] {
      assert a + b == b;
    } else {
      assert (a + b)[1..] == a[1..] + b;
      var (q, v) := Step(p, a[0]);
      if v == Indeterminate { FeedJoin(q, a[1..], b); }
    }
  }

  function Flat(chunks: seq<Bytes>): Bytes {
    if chunks == [] then [] else chunks[0] + Flat(chunks[1..])
  }

  /** Chunk by chunk, as `do_read` hands them to the parser, until there is a verdict. */
  function FeedChunks(p: Parser, chunks: seq<Bytes>): Fed
    requires Sound(p)
    decreases |chunks|
  {
    if chunks == [] then Fed(p, Indeterminate, 0)
    else
      var f := Feed(p, chunks[0]);
      if f.verdict != Indeterminate then f
      else var g := FeedChunks(f.p, chunks[1..]); Fed(g.p, g.verdict, f.used + g.used)
  }

  /** The chunking does not matter. */
  lemma {:induction false} AnyChunking(p: Parser, chunks: seq<Bytes>)
    requires Sound(p)
    ensures FeedChunks(p, chunks) == Feed(p, Flat(chunks))
    decreases |chunks|
  {
    if chunks != [] {
      var f := Feed(p, chunks[0]);
      FeedJoin(p, chunks[0], Flat(chunks[1..]));
      if f.verdict == Indeterminate { AnyChunking(f.p, chunks[1..]); }
    }
  }

  // ----- Printed requests ---------------------------------------------------------------------

  predicate IsToken(s: Bytes) {
    s != [] && forall k :: 0 <= k < |s| ==> IsTokenByte(s[k])
  }

  predicate NoCtl(s: Bytes) {
    forall k :: 0 <= k < |s| ==> !IsCtl(s[k])
  }

  predicate NoSpace(s: Bytes) {
    forall k :: 0 <= k < |s| ==> s[k] != SP
  }

  predicate Printable(r: Request) {
    && IsToken(r.method_) && NoCtl(r.uri) && NoSpace(r.uri) && r.major >= 0 && r.minor >= 0
    && (forall k :: 0 <= k < |r.headers| ==> IsToken(r.headers[k].name) && NoCtl(r.headers[k].value))
    && r.contentLength == |r.content| && Lengths(r.headers) == Value(|r.content|)
  }

  function PrintHeader(h: Header): Bytes {
    h.name + [58, SP] + h.value + [CR, LF]
  }

  function PrintHeaders(hs: seq<Header>): Bytes {
    if hs == [] then [] else PrintHeader(hs[0]) + PrintHeaders(hs[1..])
  }

  function PrintLine(r: Request): Bytes
    requires r.major >= 0 && r.minor >= 0
  {
    r.method_ + [SP] + r.uri + [SP, 72, 84, 84, 80, 47] + Digits(r.major) + [46] + Digits(r.minor) + [CR, LF]
  }

  function Print(r: Request): Bytes
    requires r.major >= 0 && r.minor >= 0
  {
    PrintLine(r) + PrintHeaders(r.headers) + [CR, LF] + r.content
  }

  const FRESH := Parser(MethodStart, 0, Request([], [], 0, 0, [], 0, []))

  // ----- The round trip ------------------------------------------------------------------------

  /** All of `w` is taken and leads from `p` to `q`. */
  ghost predicate Goes(p: Parser, w: Bytes, q: Parser) {
    Sound(p) && Feed(p, w) == Fed(q, Indeterminate, |w|)
  }

  lemma GoesOn(p: Parser, v: Bytes, q: Parser, w: Bytes, r: Parser)
    requires Goes(p, v, q) && Goes(q, w, r)
    ensures Goes(p, v + w, r)
  {
    FeedJoin(p, v, w);
  }

  lemma GoesOne(p: Parser, b: Byte)
    requires Sound(p) && Step(p, b).1 == Indeterminate
    ensures Goes(p, [b], Step(p, b).0)
  {
    assert [b][1..] == [];
  }

  lemma {:induction false} GoesMethod(p: Parser, w: Bytes)
    requires p.mode == Method && forall k :: 0 <= k < |w| ==> IsTokenByte(w[k])
    ensures Goes(p, w, p.(req := p.req.(method_ := p.req.method_ + w)))
    decreases |w|
  {
    if w != [] {
      var q := Step(p, w[0]).0;
      GoesMethod(q, w[1..]);
      assert p.req.method_ + [w[0]] + w[1..] == p.req.method_ + w;
    } else {
      assert p.req.method_ + w == p.req.method_;
    }
  }

  lemma {:induction false} GoesUri(p: Parser, w: Bytes)
    requires p.mode == Uri && NoCtl(w) && NoSpace(w)
    ensures Goes(p, w, p.(req := p.req.(uri := p.req.uri + w)))
    decreases |w|
  {
    if w != [] {
      var q := Step(p, w[0]).0;
      GoesUri(q, w[1..]);
      assert p.req.uri + [w[0]] + w[1..] == p.req.uri + w;
    } else {
      assert p.req.uri + w == p.req.uri;
    }
  }

  /** Reading digits from left to right. */
  function Continued(acc: nat, ds: Bytes): nat
    requires AllDigits(ds)
    decreases |ds|
  {
    if ds == [] then acc else Continued(acc * 10 + (ds[0] - ZERO), ds[1..])
  }

  lemma {:induction false} ContinuedIs(acc: nat, ds: Bytes)
    requires AllDigits(ds)
    ensures Continued(acc, ds) == if ds == [] then acc else Continued(acc, ds[..|ds| - 1]) * 10 + (ds[|ds| - 1] - ZERO)
    ensures acc == 0 ==> Continued(acc, ds) == Decimal(ds)
    decreases |ds|
  {
    if |ds| == 1 {
      assert ds[1..] == [] && ds[..0] == [];
    } else if ds != [] {
      ContinuedIs(acc * 10 + (ds[0] - ZERO), ds[1..]);
      assert ds[1..][..|ds| - 2] == ds[..|ds| - 1][1..];
      ContinuedIs(acc, ds[..|ds| - 1]);
    }
  }

  lemma {:induction false} GoesMajor(p: Parser, w: Bytes)
    requires p.mode == Major && AllDigits(w) && p.req.major >= 0
    ensures Goes(p, w, p.(req := p.req.(major := Continued(p.req.major, w))))
    decreases |w|
  {
    if w != [] { GoesMajor(Step(p, w[0]).0, w[1..]); }
  }

  lemma {:induction false} GoesMinor(p: Parser, w: Bytes)
    requires p.mode == Minor && AllDigits(w) && p.req.minor >= 0
    ensures Goes(p, w, p.(req := p.req.(minor := Continued(p.req.minor, w))))
    decreases |w|
  {
    if w != [] { GoesMinor(Step(p, w[0]).0, w[1..]); }
  }

  function WithName(r: Request, name: Bytes): Request
    requires r.headers != []
  {
    r.(headers := r.headers[|r.headers| - 1 := r.headers[|r.headers| - 1].(name := name)])
  }

  function WithValue(r: Request, value: Bytes): Request
    requires r.headers != []
  {
    r.(headers := r.headers[|r.headers| - 1 := r.headers[|r.headers| - 1].(value := value)])
  }

  lemma {:induction false} GoesName(p: Parser, w: Bytes)
    requires p.mode == HeaderName && p.req.headers != [] && forall k :: 0 <= k < |w| ==> IsTokenByte(w[k])
    ensures Goes(p, w, p.(req := WithName(p.req, p.req.headers[|p.req.headers| - 1].name + w)))
    decreases |w|
  {
    var n := p.req.headers[|p.req.headers| - 1].name;
    if w != [] {
      var q := Step(p, w[0]).0;
      GoesName(q, w[1..]);
      assert n + [w[0]] + w[1..] == n + w;
    } else {
      assert n + w == n;
    }
  }

  lemma {:induction false} GoesValue(p: Parser, w: Bytes)
    requires p.mode == HeaderValue && p.req.headers != [] && NoCtl(w)
    ensures Goes(p, w, p.(req := WithValue(p.req, p.req.headers[|p.req.headers| - 1].value + w)))
    decreases |w|
  {
    var n := p.req.headers[|p.req.headers| - 1].value;
    if w != [] {
      var q := Step(p, w[0]).0;
      GoesValue(q, w[1..]);
      assert n + [w[0]] + w[1..] == n + w;
    } else {
      assert n + w == n;
    }
  }

  /** The body ends with the verdict at its last byte. */
  lemma {:induction false} GoesContent(p: Parser, w: Bytes)
    requires p.mode == Content && w != [] && p.counter + |w| == p.req.contentLength
    ensures Sound(p)
    ensures Feed(p, w) ==
            Fed(p.(counter := p.req.contentLength, req := p.req.(content := p.req.content + w)), Good, |w|)
    decreases |w|
  {
    if |w| > 1 {
      var q := Step(p, w[0]).0;
      GoesContent(q, w[1..]);
      assert p.req.content + [w[0]] + w[1..] == p.req.content + w;
    } else {
      assert w == [w[0]];
    }
  }

  /** A fixed word, one expected byte after the other. */
  lemma GoesVersion(p: Parser)
    requires p.mode == VersionH
    ensures Goes(p, [72, 84, 84, 80, 47], p.(mode := MajorStart, req := p.req.(major := 0, minor := 0)))
  {
    hide Feed;
    var t1, t2, pp, sl := p.(mode := VersionT1), p.(mode := VersionT2), p.(mode := VersionP), p.(mode := VersionSlash);
    GoesOne(p, 72);
    GoesOne(t1, 84);
    GoesOne(t2, 84);
    GoesOne(pp, 80);
    GoesOne(sl, 47);
    hide Goes, Step, StepLine;
    GoesOn(p, [72], t1, [84], t2);
    GoesOn(p, [72] + [84], t2, [84], pp);
    GoesOn(p, [72] + [84] + [84], pp, [80], sl);
    GoesOn(p, [72] + [84] + [84] + [80], sl, [47], p.(mode := MajorStart, req := p.req.(major := 0, minor := 0)));
    assert [72] + [84] + [84] + [80] + [47] == [72, 84, 84, 80, 47];
  }

  /** Method and URI, with the spaces after them. */
  lemma GoesTarget(m: Bytes, u: Bytes)
    requires IsToken(m) && NoCtl(u) && NoSpace(u)
    ensures Goes(FRESH, m + [SP] + u + [SP], FRESH.(mode := VersionH, req := FRESH.req.(method_ := m, uri := u)))
  {
    hide Feed;
    var p := Step(FRESH, m[0]).0;
    assert p == FRESH.(mode := Method, req := FRESH.req.(method_ := [m[0]])) by { assert [] + [m[0]] == [m[0]]; }
    GoesOne(FRESH, m[0]);
    GoesMethod(p, m[1..]);
    assert [m[0]] + m[1..] == m;
    var q := FRESH.(mode := Method, req := FRESH.req.(method_ := m));
    GoesOne(q, SP);
    var u0 := q.(mode := Uri);
    GoesUri(u0, u);
    assert [] + u == u;
    var u1 := u0.(req := u0.req.(uri := u));
    GoesOne(u1, SP);
    hide Goes, Step, StepLine;
    GoesOn(FRESH, [m[0]], p, m[1..], q);
    GoesOn(FRESH, m, q, [SP], u0);
    GoesOn(FRESH, m + [SP], u0, u, u1);
    GoesOn(FRESH, m + [SP] + u, u1, [SP], u1.(mode := VersionH));
  }

  lemma Cons(w: Bytes)
    requires w != []
    ensures [w[0]] + w[1..] == w
  {
  }

  /** The first digit of a version number. */
  lemma GoesFirstDigit(p: Parser, b: Byte)
    requires p.mode in {MajorStart, MinorStart} && IsDigit(b)
    ensures p.mode == MajorStart ==>
            Goes(p, [b], p.(mode := Major, req := p.req.(major := p.req.major * 10 + (b - ZERO))))
    ensures p.mode == MinorStart ==>
            Goes(p, [b], p.(mode := Minor, req := p.req.(minor := p.req.minor * 10 + (b - ZERO))))
  {
    hide Feed, Goes;
    GoesOne(p, b);
  }

  lemma GoesDot(p: Parser)
    requires p.mode == Major
    ensures Goes(p, [46], p.(mode := MinorStart))
  {
    hide Feed, Goes;
    GoesOne(p, 46);
  }

  lemma ContinuedFirst(ds: Bytes)
    requires AllDigits(ds) && ds != []
    ensures AllDigits(ds[1..]) && IsDigit(ds[0]) && ds[0] >= ZERO && Continued(ds[0] - ZERO, ds[1..]) == Decimal(ds)
  {
    hide *;
    FirstRest(ds);
    ContinuedIs(0, ds);
    ContinuedOnce(0, ds);
  }

  lemma FirstRest(ds: Bytes)
    requires AllDigits(ds) && ds != []
    ensures AllDigits(ds[1..]) && IsDigit(ds[0]) && ds[0] >= ZERO
  {
  }

  lemma ContinuedOnce(acc: nat, ds: Bytes)
    requires AllDigits(ds) && ds != [] && AllDigits(ds[1..]) && ds[0] >= ZERO
    ensures Continued(acc, ds) == Continued(acc * 10 + (ds[0] - ZERO), ds[1..])
  {
  }

  /** The major version with the dot after it. */
  lemma GoesMajorDot(p: Parser, a: Bytes)
    requires p.mode == MajorStart && p.req.major == 0 && AllDigits(a) && a != []
    ensures Goes(p, a + [46], p.(mode := MinorStart, req := p.req.(major := Decimal(a))))
  {
    hide *;
    ContinuedFirst(a);
    Cons(a);
    var p1 := p.(mode := Major, req := p.req.(major := a[0] - ZERO));
    var p2 := p.(mode := Major, req := p.req.(major := Decimal(a)));
    GoesFirstDigit(p, a[0]);
    GoesMajor(p1, a[1..]);
    GoesDot(p2);
    GoesOn(p, [a[0]], p1, a[1..], p2);
    GoesOn(p, a, p2, [46], p2.(mode := MinorStart));
  }

  /** The minor version with the end of the line. */
  lemma GoesMinorEnd(p: Parser, a: Bytes)
    requires p.mode == MinorStart && p.req.minor == 0 && AllDigits(a) && a != []
    ensures Goes(p, a + [CR, LF], p.(mode := HeaderLineStart, req := p.req.(minor := Decimal(a))))
  {
    hide *;
    ContinuedFirst(a);
    Cons(a);
    var p1 := p.(mode := Minor, req := p.req.(minor := a[0] - ZERO));
    var p2 := p.(mode := Minor, req := p.req.(minor := Decimal(a)));
    GoesFirstDigit(p, a[0]);
    GoesMinor(p1, a[1..]);
    GoesCrLf(p2, p2.(mode := Newline1));
    GoesOn(p, [a[0]], p1, a[1..], p2);
    GoesOn(p, a, p2, [CR, LF], p2.(mode := HeaderLineStart));
  }

  lemma GoesCrLf(p: Parser, q: Parser)
    requires p.mode == Minor || (p.mode in {HeaderValue, HeaderLws} && p.req.headers != [])
    requires q == p.(mode := if p.mode == Minor then Newline1 else Newline2)
    ensures Goes(p, [CR, LF], p.(mode := HeaderLineStart))
  {
    hide Feed;
    GoesOne(p, CR);
    GoesOne(q, LF);
    GoesOn(p, [CR], q, [LF], p.(mode := HeaderLineStart));
    assert [CR] + [LF] == [CR, LF];
  }

  lemma GoesNumbers(p: Parser, major: Bytes, minor: Bytes)
    requires p.mode == MajorStart && p.req.major == 0 && p.req.minor == 0
    requires AllDigits(major) && major != [] && AllDigits(minor) && minor != []
    ensures Goes(p, major + [46] + minor + [CR, LF],
                 p.(mode := HeaderLineStart, req := p.req.(major := Decimal(major), minor := Decimal(minor))))
  {
    hide *;
    var q := p.(mode := MinorStart, req := p.req.(major := Decimal(major)));
    GoesMajorDot(p, major);
    GoesMinorEnd(q, minor);
    GoesOn(p, major + [46], q, minor + [CR, LF], q.(mode := HeaderLineStart, req := q.req.(minor := Decimal(minor))));
    assert major + [46] + (minor + [CR, LF]) == major + [46] + minor + [CR, LF];
  }

  /** The request line, whose numbers may have leading zeros. */
  function LineText(m: Bytes, u: Bytes, major: Bytes, minor: Bytes): Bytes {
    m + [SP] + u + [SP, 72, 84, 84, 80, 47] + major + [46] + minor + [CR, LF]
  }

  lemma GoesLineText(m: Bytes, u: Bytes, major: Bytes, minor: Bytes)
    requires IsToken(m) && NoCtl(u) && NoSpace(u) && AllDigits(major) && major != [] && AllDigits(minor) && minor != []
    ensures Goes(FRESH, LineText(m, u, major, minor),
                 FRESH.(mode := HeaderLineStart,
                        req := FRESH.req.(method_ := m, uri := u, major := Decimal(major), minor := Decimal(minor))))
  {
    hide Feed, Step, Goes, Decimal, AllDigits, IsToken, NoCtl, NoSpace;
    var p := FRESH.(mode := VersionH, req := FRESH.req.(method_ := m, uri := u));
    GoesTarget(m, u);
    GoesVersion(p);
    GoesNumbers(p.(mode := MajorStart), major, minor);
    var t, n := m + [SP] + u + [SP], major + [46] + minor + [CR, LF];
    GoesOn(FRESH, t, p, [72, 84, 84, 80, 47], p.(mode := MajorStart));
    GoesOn(FRESH, t + [72, 84, 84, 80, 47], p.(mode := MajorStart), n,
           p.(mode := HeaderLineStart, req := p.req.(major := Decimal(major), minor := Decimal(minor))));
    assert t + [72, 84, 84, 80, 47] + n == LineText(m, u, major, minor);
  }

  lemma GoesLine(r: Request)
    requires Printable(r)
    ensures Goes(FRESH, PrintLine(r),
                 FRESH.(mode := HeaderLineStart,
                        req := FRESH.req.(method_ := r.method_, uri := r.uri, major := r.major, minor := r.minor)))
  {
    hide Feed, Step, Goes, Digits, Decimal;
    GoesLineText(r.method_, r.uri, Digits(r.major), Digits(r.minor));
  }

  /** The name of a header with the colon and space after it. */
  lemma GoesNameColon(p: Parser, name: Bytes)
    requires p.mode == HeaderLineStart && IsToken(name)
    ensures Goes(p, name + [58, SP],
                 p.(mode := HeaderValue, req := p.req.(headers := p.req.headers + [Header(name, [])])))
  {
    hide *;
    var q := p.(mode := HeaderName, req := p.req.(headers := p.req.headers + [Header(name, [])]));
    GoesWholeName(p, name);
    GoesColon(q);
    GoesOn(p, name, q, [58, SP], q.(mode := HeaderValue));
  }

  lemma GoesWholeName(p: Parser, name: Bytes)
    requires p.mode == HeaderLineStart && IsToken(name)
    ensures Goes(p, name, p.(mode := HeaderName, req := p.req.(headers := p.req.headers + [Header(name, [])])))
  {
    hide Feed;
    var hs := p.req.headers;
    var p1 := p.(mode := HeaderName, req := p.req.(headers := hs + [Header([name[0]], [])]));
    GoesOne(p, name[0]);
    GoesName(p1, name[1..]);
    Cons(name);
    hide Goes, Step, StepLine, StepHeaders;
    var p2 := p.(mode := HeaderName, req := p.req.(headers := hs + [Header(name, [])]));
    assert p1.(req := WithName(p1.req, name)) == p2;
    hide WithName;
    GoesOn(p, [name[0]], p1, name[1..], p2);
  }

  lemma GoesColon(p: Parser)
    requires p.mode == HeaderName && p.req.headers != []
    ensures Goes(p, [58, SP], p.(mode := HeaderValue))
  {
    hide Feed;
    GoesOne(p, 58);
    GoesOne(p.(mode := SpaceBeforeValue), SP);
    hide Goes, Step, StepLine, StepHeaders;
    GoesOn(p, [58], p.(mode := SpaceBeforeValue), [SP], p.(mode := HeaderValue));
    assert [58] + [SP] == [58, SP];
  }

  /** One header line. */
  lemma GoesHeader(p: Parser, h: Header)
    requires p.mode == HeaderLineStart && IsToken(h.name) && NoCtl(h.value)
    ensures Goes(p, PrintHeader(h), p.(req := p.req.(headers := p.req.headers + [h])))
  {
    hide Feed, Goes, Step, StepLine, StepHeaders;
    var hs := p.req.headers;
    GoesNameColon(p, h.name);
    var p3 := p.(mode := HeaderValue, req := p.req.(headers := hs + [Header(h.name, [])]));
    GoesValue(p3, h.value);
    assert [] + h.value == h.value;
    var p4 := p.(mode := HeaderValue, req := p.req.(headers := hs + [h]));
    assert p3.(req := WithValue(p3.req, h.value)) == p4;
    hide WithValue;
    GoesCrLf(p4, p4.(mode := Newline2));
    GoesOn(p, h.name + [58, SP], p3, h.value, p4);
    GoesOn(p, h.name + [58, SP] + h.value, p4, [CR, LF], p4.(mode := HeaderLineStart));
  }

  /** The blanks at the start of a folded line. */
  lemma {:induction false} GoesBlanks(p: Parser, w: Bytes)
    requires p.mode == HeaderLws && p.req.headers != [] && forall k :: 0 <= k < |w| ==> w[k] == SP || w[k] == HT
    ensures Goes(p, w, p)
    decreases |w|
  {
    if w != [] { GoesBlanks(p, w[1..]); }
  }

  lemma GoesFoldStart(p: Parser, b: Byte)
    requires !IsCtl(b) || b == HT
    requires p.req.headers != [] && p.mode in {HeaderLineStart, HeaderLws}
    requires (p.mode == HeaderLineStart <==> b == SP || b == HT)
    ensures p.mode == HeaderLineStart ==> Goes(p, [b], p.(mode := HeaderLws))
    ensures p.mode == HeaderLws ==> Goes(p, [b], p.(mode := HeaderValue, req := PushValue(p.req, b)))
  {
    hide Feed, Goes;
    GoesOne(p, b);
  }

  /** A folded header line: whatever follows its leading blanks is appended to the value
      of the last header, without the blanks. */
  lemma GoesFolded(p: Parser, blanks: Bytes, w: Bytes)
    requires p.mode == HeaderLineStart && p.req.headers != []
    requires blanks != [] && forall k :: 0 <= k < |blanks| ==> blanks[k] == SP || blanks[k] == HT
    requires NoCtl(w) && (w != [] ==> w[0] != SP)
    ensures Goes(p, blanks + w + [CR, LF], p.(req := WithValue(p.req, p.req.headers[|p.req.headers| - 1].value + w)))
  {
    hide Feed, Goes, Step;
    var v := p.req.headers[|p.req.headers| - 1].value;
    var lws := p.(mode := HeaderLws);
    GoesFoldStart(p, blanks[0]);
    GoesBlanks(lws, blanks[1..]);
    Cons(blanks);
    GoesOn(p, [blanks[0]], lws, blanks[1..], lws);
    if w == [] {
      GoesCrLf(lws, lws.(mode := Newline2));
      assert blanks + w == blanks && v + w == v;
      GoesOn(p, blanks, lws, [CR, LF], lws.(mode := HeaderLineStart));
      assert WithValue(p.req, v) == p.req;
    } else {
      GoesFoldRest(p, lws, w);
      var r := lws.(mode := HeaderValue, req := WithValue(p.req, v + w));
      GoesOn(p, blanks, lws, w, r);
      GoesCrLf(r, r.(mode := Newline2));
      GoesOn(p, blanks + w, r, [CR, LF], r.(mode := HeaderLineStart));
    }
  }

  lemma GoesFoldRest(p: Parser, lws: Parser, w: Bytes)
    requires p.req.headers != [] && lws == p.(mode := HeaderLws) && w != [] && NoCtl(w) && w[0] != SP
    ensures Goes(lws, w, lws.(mode := HeaderValue,
                              req := WithValue(p.req, p.req.headers[|p.req.headers| - 1].value + w)))
  {
    hide Feed, Goes, Step;
    var v := p.req.headers[|p.req.headers| - 1].value;
    GoesFoldStart(lws, w[0]);
    var q := lws.(mode := HeaderValue, req := PushValue(p.req, w[0]));
    GoesValue(q, w[1..]);
    Cons(w);
    assert v + [w[0]] + w[1..] == v + w;
    var r := q.(req := WithValue(p.req, v + w));
    assert WithValue(q.req, v + w) == r.req;
    GoesOn(lws, [w[0]], q, w[1..], r);
  }

  lemma {:induction false} GoesHeaders(p: Parser, hs: seq<Header>)
    requires p.mode == HeaderLineStart && forall k :: 0 <= k < |hs| ==> IsToken(hs[k].name) && NoCtl(hs[k].value)
    ensures Goes(p, PrintHeaders(hs), p.(req := p.req.(headers := p.req.headers + hs)))
    decreases |hs|
  {
    if hs == [] {
      assert p.req.headers + hs == p.req.headers;
    } else {
      hide Feed, PrintHeader, Goes;
      var q := p.(req := p.req.(headers := p.req.headers + [hs[0]]));
      GoesHeader(p, hs[0]);
      GoesHeaders(q, hs[1..]);
      GoesOn(p, PrintHeader(hs[0]), q, PrintHeaders(hs[1..]), q.(req := q.req.(headers := q.req.headers + hs[1..])));
      assert p.req.headers + [hs[0]] + hs[1..] == p.req.headers + hs;
    }
  }

  /** Everything up to the empty line. */
  lemma GoesHead(r: Request)
    requires Printable(r)
    ensures Goes(FRESH, PrintLine(r) + PrintHeaders(r.headers) + [CR],
                 FRESH.(mode := Newline3, req := r.(contentLength := 0, content := [])))
  {
    hide Feed, PrintLine, PrintHeaders;
    var p := FRESH.(mode := HeaderLineStart,
                    req := FRESH.req.(method_ := r.method_, uri := r.uri, major := r.major, minor := r.minor));
    GoesLine(r);
    GoesHeaders(p, r.headers);
    assert [] + r.headers == r.headers;
    var q := FRESH.(mode := HeaderLineStart, req := r.(contentLength := 0, content := []));
    GoesOne(q, CR);
    hide Goes, Step, StepLine, StepHeaders;
    GoesOn(FRESH, PrintLine(r), p, PrintHeaders(r.headers), q);
    GoesOn(FRESH, PrintLine(r) + PrintHeaders(r.headers), q, [CR], q.(mode := Newline3));
  }

  /** The empty line and the body: the verdict comes with the last byte. */
  lemma GoesBody(p: Parser, body: Bytes)
    requires p.mode == Newline3 && p.req.content == [] && Lengths(p.req.headers) == Value(|body|)
    ensures Sound(p)
    ensures Feed(p, [LF] + body) ==
            Fed(Parser(if body == [] then Newline3 else Content, |body|,
                       p.req.(contentLength := |body|, content := body)), Good, |body| + 1)
  {
    var bs := [LF] + body;
    assert bs[0] == LF && bs[1..] == body;
    EndStep(p, |body|);
    FeedFirst(p, bs);
    hide Lengths, Feed, Step, Goes;
    if body != [] {
      GoesContent(p.(mode := Content, counter := 0, req := p.req.(contentLength := |body|)), body);
      assert [] + body == body;
    }
  }

  lemma FeedFirst(p: Parser, bs: Bytes)
    requires Sound(p) && bs != []
    ensures var (q, v) := Step(p, bs[0]);
            Feed(p, bs) ==
              if v != Indeterminate then Fed(q, v, 1) else var r := Feed(q, bs[1..]); Fed(r.p, r.verdict, r.used + 1)
  {
    hide Step;
  }

  /** The last byte of the empty line. */
  lemma EndStep(p: Parser, n: nat)
    requires p.mode == Newline3 && Lengths(p.req.headers) == Value(n)
    ensures Sound(p)
    ensures Step(p, LF) == if n == 0 then (Parser(Newline3, 0, p.req.(contentLength := 0)), Good)
                           else (Parser(Content, 0, p.req.(contentLength := n)), Indeterminate)
  {
    hide Lengths;
  }

  /** Feeding a printed request gives `good` exactly at its last byte, with the same fields. */
  lemma RoundTrip(r: Request)
    requires Printable(r)
    ensures var f := Feed(FRESH, Print(r)); f.verdict == Good && f.used == |Print(r)| && f.p.req == r
  {
    hide Feed, Lengths, PrintLine, PrintHeaders;
    var head := PrintLine(r) + PrintHeaders(r.headers) + [CR];
    var p := FRESH.(mode := Newline3, req := r.(contentLength := 0, content := []));
    GoesHead(r);
    GoesBody(p, r.content);
    FeedJoin(FRESH, head, [LF] + r.content);
    assert Print(r) == head + ([LF] + r.content) by { assert [CR] + [LF] == [CR, LF]; }
  }

  /** The same in any chunking. */
  lemma RoundTripChunks(r: Request, chunks: seq<Bytes>)
    requires Printable(r) && Flat(chunks) == Print(r)
    ensures var f := FeedChunks(FRESH, chunks); f.verdict == Good && f.used == |Print(r)| && f.p.req == r
  {
    hide Feed, FeedChunks, Print, Printable;
    AnyChunking(FRESH, chunks);
    RoundTrip(r);
  }

  // ----- Accurate lengths and the client's request -------------------------------------------------

  lemma {:induction false} LeadingAll(ds: Bytes)
    requires AllDigits(ds)
    ensures LeadingDigits(ds) == ds
  {
    if ds != [] { LeadingAll(ds[1..]); }
  }

  lemma StoulDigits(n: nat)
    requires n <= MAX_LARGEST_UINT
    ensures Stoul(Digits(n)) == Number(n)
  {
    var ds := Digits(n);
    assert IsDigit(ds[0]);
    LeadingAll(ds);
  }

  /** A last header with the length of the body makes the length accurate. */
  lemma AccurateLength(hs: seq<Header>, n: nat)
    requires Lengths(hs).Value? && n <= MAX_LARGEST_UINT
    ensures Lengths(hs + [Header(Ascii("Content-Length"), Digits(n))]) == Value(n)
  {
    hide *;
    var h := Header(Ascii("Content-Length"), Digits(n));
    LengthsSnoc(hs, h);
    StoulDigits(n);
    LengthAdded(Lengths(hs), Digits(n));
  }

  lemma LengthsSnoc(hs: seq<Header>, h: Header)
    ensures Lengths(hs + [h]) == AddLength(Lengths(hs), h)
  {
    hide AddLength;
    assert (hs + [h])[..|hs|] == hs;
  }

  lemma LengthAdded(l: Length, text: Bytes)
    requires l.Value? && Stoul(text).Number?
    ensures AddLength(l, Header(Ascii("Content-Length"), text)) == Value(Stoul(text).n)
  {
    hide Ascii, Stoul;
  }

  /** What the client writes. */
  function ClientText(path: Bytes): Bytes {
    Ascii("GET ") + path + Ascii(" HTTP/1.0\r\n") + Ascii("Host: ") + path + Ascii("\r\n")
      + Ascii("Accept: */*\r\n") + Ascii("Connection: close\r\n\r\n")
  }

  function ClientRequest(path: Bytes): Request {
    Request(Ascii("GET"), path, 1, 0,
            [Header(Ascii("Host"), path), Header(Ascii("Accept"), Ascii("*/*")),
             Header(Ascii("Connection"), Ascii("close"))], 0, [])
  }

  lemma ClientLine(path: Bytes)
    ensures PrintLine(ClientRequest(path)) == Ascii("GET ") + path + Ascii(" HTTP/1.0\r\n")
  {
    assert Digits(1) == [49] && Digits(0) == [48];
    assert Ascii("GET ") == Ascii("GET") + [SP];
    var v: Bytes := [SP, 72, 84, 84, 80, 47];
    assert Ascii(" HTTP/1.0\r\n") == v + [49] + [46] + [48] + [CR, LF];
    hide Ascii, Digits;
    var h := Ascii("GET") + [SP] + path;
    assert h + v + [49] + [46] + [48] + [CR, LF] == h + (v + [49] + [46] + [48] + [CR, LF]);
  }

  lemma ClientPrints(path: Bytes)
    ensures ClientText(path) == Print(ClientRequest(path))
  {
    var r := ClientRequest(path);
    hide Ascii, PrintLine, PrintHeaders, Digits;
    ClientLine(path);
    ClientHeaders(path);
    var a, b := Ascii("GET ") + path + Ascii(" HTTP/1.0\r\n"), Ascii("Host: ") + path + Ascii("\r\n");
    var c, d := Ascii("Accept: */*\r\n"), Ascii("Connection: close\r\n\r\n");
    assert ClientText(path) == a + (b + c + d);
    assert Print(r) == PrintLine(r) + (PrintHeaders(r.headers) + [CR, LF]);
  }

  lemma ThreeHeaders(a: Header, b: Header, c: Header)
    ensures PrintHeaders([a, b, c]) == PrintHeader(a) + (PrintHeader(b) + PrintHeader(c))
  {
    hide PrintHeader;
    assert [a, b, c][1..] == [b, c] && [b, c][1..] == [c] && [c][1..] == [];
    assert PrintHeaders([c]) == PrintHeader(c) + [];
    assert PrintHeaders([b, c]) == PrintHeader(b) + PrintHeaders([c]);
  }

  lemma HostHeader(path: Bytes)
    ensures PrintHeader(Header(Ascii("Host"), path)) == Ascii("Host: ") + path + Ascii("\r\n")
  {
    assert Ascii("Host: ") == Ascii("Host") + [58, SP] && Ascii("\r\n") == [CR, LF];
  }

  lemma AcceptHeader()
    ensures PrintHeader(Header(Ascii("Accept"), Ascii("*/*"))) == Ascii("Accept: */*\r\n")
  {
  }

  lemma ConnectionHeader()
    ensures PrintHeader(Header(Ascii("Connection"), Ascii("close"))) + [CR, LF] == Ascii("Connection: close\r\n\r\n")
  {
  }

  lemma ClientHeaders(path: Bytes)
    ensures PrintHeaders(ClientRequest(path).headers) + [CR, LF] ==
            Ascii("Host: ") + path + Ascii("\r\n") + Ascii("Accept: */*\r\n") + Ascii("Connection: close\r\n\r\n")
  {
    hide Ascii, PrintHeader, PrintHeaders;
    var a, b, c := Header(Ascii("Host"), path), Header(Ascii("Accept"), Ascii("*/*")),
        Header(Ascii("Connection"), Ascii("close"));
    ThreeHeaders(a, b, c);
    HostHeader(path);
    AcceptHeader();
    ConnectionHeader();
    var x, y, z := PrintHeader(a), PrintHeader(b), PrintHeader(c);
    assert x + (y + z) + [CR, LF] == x + y + (z + [CR, LF]);
  }

  lemma LetterIsToken(c: Byte)
    requires 65 <= c <= 90 || 97 <= c <= 122
    ensures IsTokenByte(c)
  {
  }

  lemma WordIsToken(w: Bytes)
    requires w != [] && forall k :: 0 <= k < |w| ==> 65 <= w[k] <= 90 || 97 <= w[k] <= 122
    ensures IsToken(w)
  {
    hide IsTokenByte;
    forall k | 0 <= k < |w| ensures IsTokenByte(w[k]) { LetterIsToken(w[k]); }
  }

  lemma ClientTokens()
    ensures IsToken(Ascii("GET")) && IsToken(Ascii("Host")) && IsToken(Ascii("Accept")) && IsToken(Ascii("Connection"))
    ensures NoCtl(Ascii("*/*")) && NoCtl(Ascii("close"))
  {
    hide IsToken;
    WordIsToken(Ascii("GET"));
    WordIsToken(Ascii("Host"));
    WordIsToken(Ascii("Accept"));
    WordIsToken(Ascii("Connection"));
    assert Ascii("*/*") == [42, 47, 42];
  }

  lemma {:induction false} NoLength(hs: seq<Header>)
    requires forall k :: 0 <= k < |hs| ==> |hs[k].name| != 14
    ensures Lengths(hs) == Value(0)
  {
    if hs != [] {
      NoLength(hs[..|hs| - 1]);
    }
  }

  /** The client's own request, in any chunking, is such a request. */
  lemma ClientGet(path: Bytes, chunks: seq<Bytes>)
    requires NoCtl(path) && NoSpace(path) && Flat(chunks) == ClientText(path)
    ensures var f := FeedChunks(FRESH, chunks);
            f.verdict == Good && f.used == |ClientText(path)| && f.p.req == ClientRequest(path)
  {
    hide Feed, FeedChunks, Print, ClientText, Lengths, Flat;
    var r := ClientRequest(path);
    ClientTokens();
    NoLength(r.headers);
    ClientPrints(path);
    RoundTripChunks(r, chunks);
  }

  // ----- What is accepted ----------------------------------------------------------------------------

  /** What the parser has filled in so far. */
  predicate Partial(p: Parser) {
    && (if p.mode == MethodStart then p.req.method_ == [] else IsToken(p.req.method_))
    && NoCtl(p.req.uri) && NoSpace(p.req.uri) && p.req.major >= 0 && p.req.minor >= 0
    && (forall k :: 0 <= k < |p.req.headers| ==> IsToken(p.req.headers[k].name) && NoCtl(p.req.headers[k].value))
    && (if p.mode == Content
        then p.counter == |p.req.content| < p.req.contentLength && Lengths(p.req.headers) == Value(p.req.contentLength)
        else p.req.content == [])
  }

  lemma PartialLine(p: Parser, b: Byte)
    requires Partial(p) && InLine(p.mode) && StepLine(p, b).1 == Indeterminate
    ensures Partial(StepLine(p, b).0)
  {
    hide Lengths;
  }

  lemma PartialHeaders(p: Parser, b: Byte)
    requires Partial(p) && Sound(p) && !InLine(p.mode)
    ensures StepHeaders(p, b).1 == Indeterminate ==> Partial(StepHeaders(p, b).0)
    ensures StepHeaders(p, b).1 == Good ==> Printable(StepHeaders(p, b).0.req)
  {
    hide Lengths;
  }

  lemma {:induction false} Accepted(p: Parser, bs: Bytes)
    requires Partial(p) && Sound(p)
    ensures Feed(p, bs).verdict == Good ==> Printable(Feed(p, bs).p.req)
    decreases |bs|
  {
    if bs != [] {
      hide Lengths, StepLine, StepHeaders, Partial, Printable;
      var (q, v) := Step(p, bs[0]);
      if InLine(p.mode) {
        LineNeverGood(p, bs[0]);
        if v == Indeterminate { PartialLine(p, bs[0]); }
      } else {
        PartialHeaders(p, bs[0]);
      }
      if v == Indeterminate { Accepted(q, bs[1..]); }
    }
  }

  lemma LineNeverGood(p: Parser, b: Byte)
    ensures StepLine(p, b).1 != Good
  {
  }

  /** Whatever bytes are accepted, the request found is well formed, and its printed form
      is accepted as the same request: printing normalises. */
  lemma Normalises(bs: Bytes)
    requires Feed(FRESH, bs).verdict == Good
    ensures var r := Feed(FRESH, bs).p.req;
            Printable(r) && Feed(FRESH, Print(r)).verdict == Good && Feed(FRESH, Print(r)).p.req == r
  {
    assert Partial(FRESH);
    hide Feed, Partial;
    Accepted(FRESH, bs);
    hide Printable;
    RoundTrip(Feed(FRESH, bs).p.req);
  }
}
