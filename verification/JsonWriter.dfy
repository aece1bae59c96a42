/** `Json::FastWriter` (without `dropNullPlaceholders`). */
module JsonWriter {
  import opened JsonValue
  import opened JsonNumber
  import opened JsonString

  /** How `char` behaves on the platform, the flag set by `enableYAMLCompatibility`,
      and how `valueToString(double)` prints a real. */
  datatype Format = Format(signedChar: bool, yaml: bool, realText: real -> Bytes)

  const TRUE_TEXT: Bytes := [116, 114, 117, 101]
  const FALSE_TEXT: Bytes := [102, 97, 108, 115, 101]
  const NULL_TEXT: Bytes := [110, 117, 108, 108]
  const COMMA: Byte := 44

  /** Every integer of the tree fits the source's 64-bit types. */
  predicate Fits(v: Value) {
    match v
    case Int(i) => MIN_LARGEST_INT <= i <= MAX_LARGEST_INT
    case UInt(u) => u <= MAX_LARGEST_UINT
    case Arr(xs) => forall k :: 0 <= k < |xs| ==> Fits(xs[k])
    case Obj(ms) => forall k :: 0 <= k < |ms| ==> Fits(ms[k].value)
    case _ => true
  }

  /** The text of a value. */
  function ValueText(f: Format, v: Value): Bytes
    decreases v, 0
  {
    match v
    case Null => NULL_TEXT
    case Int(i) => IntText(i)
    case UInt(u) => Digits(u)
    case Real(r) => f.realText(r)
    case Str(s) => Quoted(f.signedChar, s)
    case Bool(b) => if b then TRUE_TEXT else FALSE_TEXT
    case Arr(xs) => [91] + ItemsFrom(f, xs, 0) + [93]
    case Obj(ms) => [123] + MembersFrom(f, ms, 0) + [125]
  }

  function Comma(k: nat): Bytes {
    if k > 0 then [COMMA] else []
  }

  function Colon(f: Format): Bytes {
    if f.yaml then [58, 32] else [58]
  }

  /** The text of the items from `k` on, each after the first led by a comma. */
  function ItemsFrom(f: Format, xs: seq<Value>, k: nat): Bytes
    requires k <= |xs|
    decreases xs, |xs| - k
  {
    if k == |xs| then [] else Comma(k) + ValueText(f, xs[k]) + ItemsFrom(f, xs, k + 1)
  }

  function MembersFrom(f: Format, ms: seq<Member>, k: nat): Bytes
    requires k <= |ms|
    decreases ms, |ms| - k
  {
    if k == |ms| then []
    else Comma(k) + Quoted(f.signedChar, ms[k].key) + Colon(f) + ValueText(f, ms[k].value) + MembersFrom(f, ms, k + 1)
  }

  class FastWriter {
    const format: Format
    const omitEndingLineFeed: bool
    var document: Bytes

    constructor (f: Format, omit: bool)
      ensures format == f && omitEndingLineFeed == omit && document == []
    {
      format, omitEndingLineFeed, document := f, omit, [];
    }

    /** `writeValue` */
    method WriteValue(v: Value)
      requires Fits(v)
      modifies this
      decreases v
      ensures document == old(document) + ValueText(format, v)
    {
      match v {
        case Null => document := document + NULL_TEXT;
        case Int(i) =>
          var s := ValueToStringInt(i);
          document := document + s;
        case UInt(u) =>
          var s := ValueToStringUInt(u);
          document := document + s;
        case Real(r) => document := document + format.realText(r);
        case Str(s) =>
          var q := ValueToQuotedStringN(format.signedChar, s);
          document := document + q;
        case Bool(b) => document := document + (if b then TRUE_TEXT else FALSE_TEXT);
        case Arr(xs) => WriteItems(xs);
        case Obj(ms) => WriteMembers(ms);
      }
    }

    /** The `arrayValue` case of `writeValue`. */
    method WriteItems(xs: seq<Value>)
      requires forall k :: 0 <= k < |xs| ==> Fits(xs[k])
      modifies this
      decreases xs
      ensures document == old(document) + ([91] + ItemsFrom(format, xs, 0) + [93])
    {
      hide ValueText, Fits, Comma;
      document := document + [91];
      ghost var goal := document + ItemsFrom(format, xs, 0);
      for index := 0 to |xs|
        invariant document + ItemsFrom(format, xs, index) == goal
      {
        ItemsGrow(format, xs, index, document);
        document := document + Comma(index);
        WriteValue(xs[index]);
      }
      assert document == goal by { assert ItemsFrom(format, xs, |xs|) == []; }
      document := document + [93];
    }

    /** The `objectValue` case; `getMemberNames` lists the names in key order. */
    method WriteMembers(ms: seq<Member>)
      requires forall k :: 0 <= k < |ms| ==> Fits(ms[k].value)
      modifies this
      decreases ms
      ensures document == old(document) + ([123] + MembersFrom(format, ms, 0) + [125])
    {
      hide ValueText, Fits, Comma, Colon, Quoted;
      document := document + [123];
      ghost var goal := document + MembersFrom(format, ms, 0);
      for index := 0 to |ms|
        invariant document + MembersFrom(format, ms, index) == goal
      {
        MembersGrow(format, ms, index, document);
        document := document + Comma(index);
        var q := ValueToQuotedStringN(format.signedChar, ms[index].key);
        document := document + q;
        document := document + Colon(format);
        WriteValue(ms[index].value);
      }
      assert document == goal by { assert MembersFrom(format, ms, |ms|) == []; }
      document := document + [125];
    }

    /** `write` */
    method Write(root: Value) returns (r: Bytes)
      requires Fits(root)
      modifies this
      ensures r == ValueText(format, root) + (if omitEndingLineFeed then [] else [10])
    {
      document := [];
      WriteValue(root);
      assert document == ValueText(format, root);
      if !omitEndingLineFeed {
        document := document + [10];
      }
      r := document;
    }
  }

  lemma ItemsGrow(f: Format, xs: seq<Value>, k: nat, before: Bytes)
    requires k < |xs|
    ensures before + ItemsFrom(f, xs, k) == before + Comma(k) + ValueText(f, xs[k]) + ItemsFrom(f, xs, k + 1)
  {
    hide ValueText, Comma;
  }

  lemma MembersGrow(f: Format, ms: seq<Member>, k: nat, before: Bytes)
    requires k < |ms|
    ensures before + MembersFrom(f, ms, k) ==
            before + Comma(k) + Quoted(f.signedChar, ms[k].key) + Colon(f) + ValueText(f, ms[k].value)
              + MembersFrom(f, ms, k + 1)
  {
    hide *;
    MembersStep(f, ms, k);
    Joined(before, Comma(k), Quoted(f.signedChar, ms[k].key), Colon(f), ValueText(f, ms[k].value),
           MembersFrom(f, ms, k + 1));
  }

  lemma MembersStep(f: Format, ms: seq<Member>, k: nat)
    requires k < |ms|
    ensures MembersFrom(f, ms, k) ==
            Comma(k) + Quoted(f.signedChar, ms[k].key) + Colon(f) + ValueText(f, ms[k].value)
              + MembersFrom(f, ms, k + 1)
  {
    hide ValueText, Comma, Colon, Quoted;
  }

  lemma Joined(before: Bytes, a: Bytes, b: Bytes, c: Bytes, d: Bytes, e: Bytes)
    ensures before + (a + b + c + d + e) == before + a + b + c + d + e
  {
    assert a + b + c + d + e == a + (b + c + d + e);
    assert before + (a + (b + c + d + e)) == before + a + (b + c + d + e);
  }
}
