/**
  `request_parser` and the request it fills, byte by byte, and the reading loop of
  a connection.
 */
module HttpParser {
  import opened JsonValue
  import opened JsonNumber
  import opened Http

  class HttpRequest {
    var method_: Bytes
    var uri: Bytes
    var major: int
    var minor: int
    var headers: seq<Header>
    var contentLength: nat
    var content: Bytes

    constructor ()
      ensures View() == FRESH.req
    {
      method_, uri, major, minor, headers, contentLength, content := [], [], 0, 0, [], 0, [];
    }

    ghost function View(): Request
      reads this
    {
      Request(method_, uri, major, minor, headers, contentLength, content)
    }
  }

  class RequestParser {
    var state: Mode
    var charcounter: nat

    constructor ()
      ensures state == MethodStart && charcounter == 0
    {
      state, charcounter := MethodStart, 0;
    }

    ghost function View(req: HttpRequest): Parser
      reads this, req
    {
      Parser(state, charcounter, req.View())
    }

    /** `reset` leaves the request as it is. */
    method Reset(req: HttpRequest)
      modifies this
      ensures View(req) == old(View(req)).(mode := MethodStart) && Sound(View(req))
    {
      state := MethodStart;
    }

    /** The cases of `consume` for the request line. */
    method ConsumeLine(req: HttpRequest, input: Byte) returns (r: Verdict)
      requires InLine(state)
      modifies this, req
      ensures (View(req), r) == StepLine(old(View(req)), input)
    {
      match state {
      case MethodStart =>
        if !IsChar(input) || IsCtl(input) || IsTspecial(input) { return Bad; }
        state := Method;
        req.method_ := req.method_ + [input];
      case Method =>
        if input == SP {
          state := Uri;
        } else if !IsChar(input) || IsCtl(input) || IsTspecial(input) {
          return Bad;
        } else {
          req.method_ := req.method_ + [input];
        }
      case Uri =>
        if input == SP {
          state := VersionH;
        } else if IsCtl(input) {
          return Bad;
        } else {
          req.uri := req.uri + [input];
        }
      case VersionH =>
        if input != 72 { return Bad; }
        state := VersionT1;
      case VersionT1 =>
        if input != 84 { return Bad; }
        state := VersionT2;
      case VersionT2 =>
        if input != 84 { return Bad; }
        state := VersionP;
      case VersionP =>
        if input != 80 { return Bad; }
        state := VersionSlash;
      case VersionSlash =>
        if input != 47 { return Bad; }
        req.major := 0;
        req.minor := 0;
        state := MajorStart;
      case MajorStart =>
        if !IsDigit(input) { return Bad; }
        req.major := req.major * 10 + input - ZERO;
        state := Major;
      case Major =>
        if input == 46 {
          state := MinorStart;
        } else if IsDigit(input) {
          req.major := req.major * 10 + input - ZERO;
        } else {
          return Bad;
        }
      case MinorStart =>
        if !IsDigit(input) { return Bad; }
        req.minor := req.minor * 10 + input - ZERO;
        state := Minor;
      case Minor =>
        if input == CR {
          state := Newline1;
        } else if IsDigit(input) {
          req.minor := req.minor * 10 + input - ZERO;
        } else {
          return Bad;
        }
      }
      return Indeterminate;
    }

    /** Scans the headers for the content length; false when `stoul` raises. */
    method ScanLengths(req: HttpRequest) returns (ok: bool)
      modifies req
      ensures req.View() == old(req.View()).(contentLength := req.contentLength)
      ensures Lengths(req.headers) == if ok then Value(req.contentLength) else Raised(req.contentLength)
    {
      hide Ascii, Stoul;
      req.contentLength := 0;
      for k := 0 to |req.headers|
        invariant req.View() == old(req.View()).(contentLength := req.contentLength)
        invariant Lengths(req.headers[..k]) == Value(req.contentLength)
      {
        LengthsNext(req.headers, k);
        if req.headers[k].name == Ascii("Content-Length") {
          var n := Stoul(req.headers[k].value);
          if !n.Number? {
            StaysRaised(req.headers, k + 1, req.contentLength);
            return false;
          }
          req.contentLength := n.n;
        }
      }
      assert req.headers[..|req.headers|] == req.headers;
      return true;
    }

    /** The cases of `consume` for the headers and the body. */
    method ConsumeHeaders(req: HttpRequest, input: Byte) returns (r: Verdict)
      requires !InLine(state) && Sound(View(req))
      modifies this, req
      ensures (View(req), r) == StepHeaders(old(View(req)), input)
    {
      hide Lengths;
      var last := |req.headers| - 1;
      match state {
      case Newline1 =>
        if input != LF { return Bad; }
        state := HeaderLineStart;
      case HeaderLineStart =>
        if input == CR {
          state := Newline3;
        } else if req.headers != [] && (input == SP || input == HT) {
          state := HeaderLws;
        } else if !IsChar(input) || IsCtl(input) || IsTspecial(input) {
          return Bad;
        } else {
          req.headers := req.headers + [Header([input], [])];
          state := HeaderName;
        }
      case HeaderLws =>
        if input == CR {
          state := Newline2;
        } else if input == SP || input == HT {
        } else if IsCtl(input) {
          return Bad;
        } else {
          state := HeaderValue;
          req.headers := req.headers[last := req.headers[last].(value := req.headers[last].value + [input])];
        }
      case HeaderName =>
        if input == 58 {
          state := SpaceBeforeValue;
        } else if !IsChar(input) || IsCtl(input) || IsTspecial(input) {
          return Bad;
        } else {
          req.headers := req.headers[last := req.headers[last].(name := req.headers[last].name + [input])];
        }
      case SpaceBeforeValue =>
        if input != SP { return Bad; }
        state := HeaderValue;
      case HeaderValue =>
        if input == CR {
          state := Newline2;
        } else if IsCtl(input) {
          return Bad;
        } else {
          req.headers := req.headers[last := req.headers[last].(value := req.headers[last].value + [input])];
        }
      case Newline2 =>
        if input != LF { return Bad; }
        state := HeaderLineStart;
      case Newline3 =>
        if input != LF { return Bad; }
        var ok := ScanLengths(req);
        if !ok { return Thrown; }
        charcounter := 0;
        if req.contentLength == 0 { return Good; }
        state := Content;
      case Content =>
        req.content := req.content + [input];
        charcounter := charcounter + 1;
        if charcounter >= req.contentLength { return Good; }
      }
      return Indeterminate;
    }

    /** `consume`. */
    method Consume(req: HttpRequest, input: Byte) returns (r: Verdict)
      requires Sound(View(req))
      modifies this, req
      ensures (View(req), r) == Step(old(View(req)), input)
    {
      hide StepLine, StepHeaders;
      if InLine(state) {
        r := ConsumeLine(req, input);
      } else {
        r := ConsumeHeaders(req, input);
      }
    }

    /** `parse`: bytes `begin..end` of a buffer, up to the first verdict. */
    method Parse(req: HttpRequest, buffer: Bytes, begin: nat, end: nat) returns (r: Verdict, next: nat)
      requires Sound(View(req)) && begin <= end <= |buffer|
      modifies this, req
      ensures begin <= next <= end && Sound(View(req))
      ensures Feed(old(View(req)), buffer[begin..end]) == Fed(View(req), r, next - begin)
    {
      next := begin;
      ghost var p := View(req);
      FedNothing(p, buffer, begin);
      hide FedTo, Step, Sound, Feed;
      while next != end
        invariant begin <= next <= end && Sound(View(req)) && FedTo(p, buffer, begin, next, View(req), Indeterminate)
      {
        ghost var q := View(req);
        r := Consume(req, buffer[next]);
        FedMore(p, buffer, begin, next, q);
        next := next + 1;
        if r != Indeterminate {
          FedEnough(p, buffer, begin, next, end, View(req), r);
          return;
        }
      }
      r := Indeterminate;
      FedIs(p, buffer, begin, next, View(req), r);
    }
  }

  /** The reads of a connection: a fresh parser gets chunk after chunk until there is a verdict. */
  method ReadRequest(chunks: seq<Bytes>) returns (r: Verdict, req: HttpRequest)
    ensures r == FeedChunks(FRESH, chunks).verdict && req.View() == FeedChunks(FRESH, chunks).p.req
  {
    hide Feed, Step;
    var parser := new RequestParser();
    req := new HttpRequest();
    r := Indeterminate;
    ghost var done: nat := 0;
    var k := 0;
    while k < |chunks|
      invariant 0 <= k <= |chunks| && Sound(parser.View(req))
      invariant FeedChunks(FRESH, chunks) == var g := FeedChunks(parser.View(req), chunks[k..]);
                Fed(g.p, g.verdict, done + g.used)
    {
      ghost var p := parser.View(req);
      var next;
      r, next := parser.Parse(req, chunks[k], 0, |chunks[k]|);
      assert chunks[k][0..|chunks[k]|] == chunks[k];
      ChunksNext(p, chunks, k);
      if r != Indeterminate {
        return;
      }
      done := done + |chunks[k]|;
      k := k + 1;
    }
    r := Indeterminate;
  }

  lemma ChunksNext(p: Parser, chunks: seq<Bytes>, k: nat)
    requires Sound(p) && k < |chunks|
    ensures var f := Feed(p, chunks[k]);
            FeedChunks(p, chunks[k..]) ==
            if f.verdict != Indeterminate then f
            else var g := FeedChunks(f.p, chunks[k + 1..]); Fed(g.p, g.verdict, f.used + g.used)
  {
    hide Feed;
    assert chunks[k..][0] == chunks[k] && chunks[k..][1..] == chunks[k + 1..];
  }

  /** The bytes `begin..next` took the parser from `p` to `q`, and the last of them gave verdict `v`. */
  ghost predicate FedTo(p: Parser, buffer: Bytes, begin: nat, next: nat, q: Parser, v: Verdict)
    requires Sound(p)
  {
    begin <= next <= |buffer| && Feed(p, buffer[begin..next]) == Fed(q, v, next - begin)
  }

  lemma FedIs(p: Parser, buffer: Bytes, begin: nat, next: nat, q: Parser, v: Verdict)
    requires Sound(p) && FedTo(p, buffer, begin, next, q, v)
    ensures begin <= next <= |buffer| && Feed(p, buffer[begin..next]) == Fed(q, v, next - begin)
  {
    hide Feed, Sound;
  }

  lemma FedNothing(p: Parser, buffer: Bytes, begin: nat)
    requires Sound(p) && begin <= |buffer|
    ensures FedTo(p, buffer, begin, begin, p, Indeterminate)
  {
    hide Step, Sound;
    assert buffer[begin..begin] == [];
  }

  lemma FedMore(p: Parser, buffer: Bytes, begin: nat, next: nat, q: Parser)
    requires Sound(p) && Sound(q) && next < |buffer| && FedTo(p, buffer, begin, next, q, Indeterminate)
    ensures Sound(Step(q, buffer[next]).0)
    ensures FedTo(p, buffer, begin, next + 1, Step(q, buffer[next]).0, Step(q, buffer[next]).1)
  {
    hide Step, Sound, Feed;
    FeedSnoc(p, buffer[begin..next], buffer[next], q);
    assert buffer[begin..next] + [buffer[next]] == buffer[begin..next + 1];
  }

  /** After a verdict the rest of the buffer does not matter. */
  lemma FedEnough(p: Parser, buffer: Bytes, begin: nat, next: nat, end: nat, q: Parser, v: Verdict)
    requires Sound(p) && next <= end <= |buffer| && FedTo(p, buffer, begin, next, q, v) && v != Indeterminate
    ensures Feed(p, buffer[begin..end]) == Fed(q, v, next - begin)
  {
    hide Step, Sound, Feed;
    FeedJoin(p, buffer[begin..next], buffer[next..end]);
    assert buffer[begin..next] + buffer[next..end] == buffer[begin..end];
  }

  lemma FeedSnoc(p: Parser, bs: Bytes, b: Byte, q: Parser)
    requires Sound(p) && Sound(q) && Feed(p, bs) == Fed(q, Indeterminate, |bs|)
    ensures Feed(p, bs + [b]) == Fed(Step(q, b).0, Step(q, b).1, |bs| + 1)
  {
    hide Step, Feed;
    FeedJoin(p, bs, [b]);
    FeedOne(q, b);
  }

  lemma FeedOne(q: Parser, b: Byte)
    requires Sound(q)
    ensures Feed(q, [b]) == Fed(Step(q, b).0, Step(q, b).1, 1)
  {
    hide Step;
    assert [b][1..] == [];
  }

  lemma LengthsNext(hs: seq<Header>, k: nat)
    requires k < |hs|
    ensures Lengths(hs[..k + 1]) == AddLength(Lengths(hs[..k]), hs[k])
  {
    assert hs[..k + 1][..k] == hs[..k];
  }

  lemma {:induction false} StaysRaised(hs: seq<Header>, k: nat, n: nat)
    requires k <= |hs| && Lengths(hs[..k]) == Raised(n)
    ensures Lengths(hs) == Raised(n)
    decreases |hs| - k
  {
    if k == |hs| {
      assert hs[..k] == hs;
    } else {
      LengthsNext(hs, k);
      StaysRaised(hs, k + 1, n);
    }
  }
}
