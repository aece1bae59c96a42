/**
  JSON texts as `Json::Reader` with its default features understands them: what a text may hold,
  how it looks and which value it means, without the reader's functions.  `JsonLanguage` relates
  them to the reader.
 */
module JsonText {
  import opened Wrappers
  import opened JsonValue
  import opened JsonNumber
  import opened JsonGrammar

  // ----- Between tokens --------------------------------------------------------------------

  /** A blank, a comment between slash-star and star-slash, or one from two slashes to the end of the line. */
  datatype Filler = Blank(b: Byte) | Block(body: Bytes) | Line(body: Bytes, eol: Byte)

  type Gap = seq<Filler>

  /** Space, tab, carriage return and line feed. */
  predicate IsBlank(b: Byte) {
    b == 32 || b == 9 || b == 13 || b == 10
  }

  predicate AllBlank(bs: Bytes) {
    forall i :: 0 <= i < |bs| ==> IsBlank(bs[i])
  }

  /** Here a comment ends. */
  predicate StarSlash(bs: Bytes, k: nat) {
    k + 1 < |bs| && bs[k] == 42 && bs[k + 1] == 47
  }

  predicate IsFiller(f: Filler) {
    match f
    case Blank(b) => IsBlank(b)
    case Block(body) => forall k :: 0 <= k < |body| ==> !StarSlash(body, k)
    case Line(body, eol) => (eol == 10 || eol == 13) && forall k :: 0 <= k < |body| ==> body[k] != 10 && body[k] != 13
  }

  predicate IsGap(g: Gap) {
    forall k :: 0 <= k < |g| ==> IsFiller(g[k])
  }

  predicate HasComment(g: Gap) {
    exists k :: 0 <= k < |g| && !g[k].Blank?
  }

  function FillerText(f: Filler): Bytes {
    match f
    case Blank(b) => [b]
    case Block(body) => [47, 42] + (body + [42, 47])
    case Line(body, eol) => [47, 47] + (body + [eol])
  }

  function GapText(g: Gap): Bytes {
    if g == [] then [] else FillerText(g[0]) + GapText(g[1..])
  }

  // ----- Strings ---------------------------------------------------------------------------

  /** A byte, an escape of two characters, one of four hexadecimal digits, or two of these for one character. */
  datatype Piece = Raw(b: Byte) | Escape(c: Byte) | Unit(hex: Bytes) | Pair(high: Bytes, low: Bytes)

  predicate IsHexDigit(b: Byte) {
    48 <= b <= 57 || 65 <= b <= 70 || 97 <= b <= 102
  }

  predicate IsHex(h: Bytes) {
    |h| == 4 && IsHexDigit(h[0]) && IsHexDigit(h[1]) && IsHexDigit(h[2]) && IsHexDigit(h[3])
  }

  /** Digits, upper-case and lower-case letters. */
  function HexOf(b: Byte): nat {
    if 48 <= b <= 57 then b - 48
    else if 65 <= b <= 70 then b - 55
    else if 97 <= b <= 102 then b - 87
    else 0
  }

  function HexNumber(h: Bytes): nat {
    if |h| == 4 then HexOf(h[0]) * 4096 + HexOf(h[1]) * 256 + HexOf(h[2]) * 16 + HexOf(h[3]) else 0
  }

  /** What a letter behind a backslash stands for, or 0. */
  function Escaped(c: Byte): Byte {
    if c == 34 then 34
    else if c == 47 then 47
    else if c == 92 then 92
    else if c == 98 then 8
    else if c == 102 then 12
    else if c == 110 then 10
    else if c == 114 then 13
    else if c == 116 then 9
    else 0
  }

  predicate IsPiece(p: Piece) {
    match p
    case Raw(b) => b != 34 && b != 92
    case Escape(c) => Escaped(c) != 0
    case Unit(hex) => IsHex(hex) && !(0xD800 <= HexNumber(hex) <= 0xDBFF)
    case Pair(high, low) => IsHex(high) && IsHex(low) && 0xD800 <= HexNumber(high) <= 0xDBFF
  }

  predicate IsString(ps: seq<Piece>) {
    forall k :: 0 <= k < |ps| ==> IsPiece(ps[k])
  }

  function PieceText(p: Piece): Bytes {
    match p
    case Raw(b) => [b]
    case Escape(c) => [92, c]
    case Unit(hex) => [92, 117] + hex
    case Pair(high, low) => [92, 117] + (high + ([92, 117] + low))
  }

  function StringText(ps: seq<Piece>): Bytes {
    if ps == [] then [] else PieceText(ps[0]) + StringText(ps[1..])
  }

  /** UTF-8 of a code point, also of a lone half of a surrogate pair. */
  function Encoded(cp: nat): Bytes {
    if cp < 0x80 then [cp]
    else if cp < 0x800 then [0xC0 + cp / 64, 0x80 + cp % 64]
    else if cp < 0x1_0000 then [0xE0 + cp / 4096, 0x80 + cp / 64 % 64, 0x80 + cp % 64]
    else if cp < 0x11_0000 then [0xF0 + cp / 262144, 0x80 + cp / 4096 % 64, 0x80 + cp / 64 % 64, 0x80 + cp % 64]
    else []
  }

  /** The second half of a pair counts by its low ten bits, whatever it is. */
  function PieceMeaning(p: Piece): Bytes {
    match p
    case Raw(b) => [b]
    case Escape(c) => [Escaped(c)]
    case Unit(hex) => Encoded(HexNumber(hex))
    case Pair(high, low) => Encoded(0x1_0000 + HexNumber(high) % 1024 * 1024 + HexNumber(low) % 1024)
  }

  function StringMeaning(ps: seq<Piece>): Bytes {
    if ps == [] then [] else PieceMeaning(ps[0]) + StringMeaning(ps[1..])
  }

  // ----- Numbers ---------------------------------------------------------------------------

  datatype Exponent = Exponent(letter: Byte, sign: Bytes, digits: Bytes)

  /** Digits may be missing everywhere, except that a number starts with a minus or a digit. */
  datatype Numeral = Numeral(minus: bool, digits: Bytes, fraction: Option<Bytes>, exponent: Option<Exponent>)

  predicate IsExponent(e: Exponent) {
    (e.letter == 101 || e.letter == 69) && (e.sign == [] || e.sign == [43] || e.sign == [45]) && DigitChars(e.digits)
  }

  predicate IsNumeral(n: Numeral) {
    && (n.minus || n.digits != []) && DigitChars(n.digits)
    && (n.fraction.Some? ==> DigitChars(n.fraction.value)) && (n.exponent.Some? ==> IsExponent(n.exponent.value))
  }

  function MinusText(n: Numeral): Bytes {
    if n.minus then [45] else []
  }

  function FractionText(n: Numeral): Bytes {
    if n.fraction.Some? then [46] + n.fraction.value else []
  }

  function ExponentText(n: Numeral): Bytes {
    if n.exponent.Some? then [n.exponent.value.letter] + (n.exponent.value.sign + n.exponent.value.digits) else []
  }

  function NumeralText(n: Numeral): Bytes {
    MinusText(n) + (n.digits + (FractionText(n) + ExponentText(n)))
  }

  /** With this byte behind it the number would go on. */
  predicate Continues(n: Numeral, b: Byte) {
    || 48 <= b <= 57
    || (n.exponent.None? && (b == 101 || b == 69 || (n.fraction.None? && b == 46)))
    || (n.exponent.Some? && n.exponent.value.sign == [] && n.exponent.value.digits == [] && (b == 43 || b == 45))
  }

  /** The integer a number without fraction and exponent stands for, if it has 64 bits. */
  function IntegerMeaning(n: Numeral): Option<Value> {
    if n.fraction.Some? || n.exponent.Some? || !DigitChars(n.digits) then None
    else
      var m: int := Positional(n.digits);
      if n.minus then (if m <= 0x8000_0000_0000_0000 then Some(Int(-m)) else None)
      else if m <= 0x7FFF_FFFF then Some(Int(m))
      else if m <= 0xFFFF_FFFF_FFFF_FFFF then Some(UInt(m))
      else None
  }

  /** All other numbers are for `decodeDouble`, which `dr` stands for. */
  function NumeralMeaning(dr: DoubleReader, n: Numeral): Option<Value> {
    if IntegerMeaning(n).Some? then IntegerMeaning(n)
    else match dr(NumeralText(n))
      case Some(r) => Some(Real(r))
      case None => None
  }

  // ----- Values ----------------------------------------------------------------------------

  datatype Node =
    | NullNode
    | TrueNode
    | FalseNode
    | NumberNode(n: Numeral)
    | StringNode(ps: seq<Piece>)
    | EmptyArray(blanks: Bytes)
    | ArrayNode(items: Items)
    | ObjectNode(members: Members)

  /** The items of an array up to its bracket. */
  datatype Items =
    | LastItem(before: Gap, node: Node, after: Gap)
    | NextItem(before: Gap, node: Node, after: Gap, rest: Items)

  /** A name and its value; before the colon only blanks may stand. */
  datatype Entry = Entry(before: Gap, name: seq<Piece>, blanks: Bytes, gap: Gap, node: Node)

  /** The members of an object up to its brace. */
  datatype Members =
    | Closed(gap: Gap)
    | LastMember(entry: Entry, after: Gap)
    | NextMember(entry: Entry, after: Gap, mark: Mark, rest: Members)

  /** What separates two members: the loop of `readObject` expects a comma, but behind a comment
      takes any token except a closing brace for one. */
  datatype Mark =
    | CommaMark
    | ByteMark(b: Byte)
    | WordMark(word: Bytes)
    | NumberMark(n: Numeral)
    | StringMark(body: Bytes)
    | SlashMark(b: Byte)

  /** Bytes that are a token by themselves, unless they begin a keyword. */
  predicate Single(b: Byte) {
    !IsBlank(b) && b != 34 && b != 45 && b != 47 && !(48 <= b <= 57) && b != 125
  }

  /** No quote ends it: bytes and pairs of a backslash and any byte. */
  predicate Unquoted(body: Bytes) {
    if body == [] then true
    else if body[0] == 92 then |body| >= 2 && Unquoted(body[2..])
    else body[0] != 34 && Unquoted(body[1..])
  }

  predicate IsMark(m: Mark) {
    match m
    case CommaMark => true
    case ByteMark(b) => Single(b)
    case WordMark(w) => w == [116, 114, 117, 101] || w == [102, 97, 108, 115, 101] || w == [110, 117, 108, 108]
    case NumberMark(n) => IsNumeral(n)
    case StringMark(body) => Unquoted(body)
    case SlashMark(b) => b != 42 && b != 47
  }

  function MarkText(m: Mark): Bytes {
    match m
    case CommaMark => [44]
    case ByteMark(b) => [b]
    case WordMark(w) => w
    case NumberMark(n) => NumeralText(n)
    case StringMark(body) => [34] + (body + [34])
    case SlashMark(b) => [47, b]
  }

  /** A comma, or behind a comment any token. */
  predicate Separates(after: Gap, m: Mark) {
    IsGap(after) && IsMark(m) && (m.CommaMark? || HasComment(after))
  }

  predicate IsNode(dr: DoubleReader, n: Node) {
    match n
    case NumberNode(m) => IsNumeral(m) && NumeralMeaning(dr, m).Some?
    case StringNode(ps) => IsString(ps)
    case EmptyArray(blanks) => AllBlank(blanks)
    case ArrayNode(xs) => IsItems(dr, xs)
    case ObjectNode(ms) => IsMembers(dr, ms, [])
    case _ => true
  }

  predicate IsItems(dr: DoubleReader, xs: Items) {
    && IsGap(xs.before) && IsNode(dr, xs.node) && IsGap(xs.after)
    && (xs.NextItem? ==> IsItems(dr, xs.rest))
  }

  predicate IsEntry(dr: DoubleReader, e: Entry) {
    IsGap(e.before) && IsString(e.name) && AllBlank(e.blanks) && IsGap(e.gap) && IsNode(dr, e.node)
  }

  /** The members behind one called `name`, or behind the opening brace with the empty `name`:
      the brace may follow a separator when that member has the empty name. */
  predicate IsMembers(dr: DoubleReader, ms: Members, name: Bytes) {
    match ms
    case Closed(gap) => IsGap(gap) && name == []
    case LastMember(e, after) => IsEntry(dr, e) && IsGap(after)
    case NextMember(e, after, mark, rest) =>
      IsEntry(dr, e) && Separates(after, mark) && IsMembers(dr, rest, StringMeaning(e.name))
  }

  function NodeText(n: Node): Bytes {
    match n
    case NullNode => [110, 117, 108, 108]
    case TrueNode => [116, 114, 117, 101]
    case FalseNode => [102, 97, 108, 115, 101]
    case NumberNode(m) => NumeralText(m)
    case StringNode(ps) => [34] + (StringText(ps) + [34])
    case EmptyArray(blanks) => [91] + (blanks + [93])
    case ArrayNode(xs) => [91] + ItemsText(xs)
    case ObjectNode(ms) => [123] + MembersText(ms)
  }

  function ItemsText(xs: Items): Bytes {
    GapText(xs.before) + (NodeText(xs.node) + (GapText(xs.after) +
    match xs
    case LastItem(_, _, _) => [93]
    case NextItem(_, _, _, rest) => [44] + ItemsText(rest)))
  }

  function EntryText(e: Entry): Bytes {
    GapText(e.before)
      + ([34] + (StringText(e.name) + ([34] + (e.blanks + ([58] + (GapText(e.gap) + NodeText(e.node)))))))
  }

  function MembersText(ms: Members): Bytes {
    match ms
    case Closed(gap) => GapText(gap) + [125]
    case LastMember(e, after) => EntryText(e) + (GapText(after) + [125])
    case NextMember(e, after, mark, rest) => EntryText(e) + (GapText(after) + (MarkText(mark) + MembersText(rest)))
  }

  /** A value and what stands before it. */
  datatype Document = Document(before: Gap, node: Node)

  predicate IsDocument(dr: DoubleReader, t: Document) {
    IsGap(t.before) && IsNode(dr, t.node)
  }

  function DocumentText(t: Document): Bytes {
    GapText(t.before) + NodeText(t.node)
  }

  /** The document begins with the text, and its number, if it is one, ends there. */
  predicate Begins(dr: DoubleReader, t: Document, doc: Bytes) {
    && IsDocument(dr, t) && DocumentText(t) <= doc
    && (t.node.NumberNode? && |DocumentText(t)| < |doc| ==> !Continues(t.node.n, doc[|DocumentText(t)|]))
  }

  // ----- Meaning ---------------------------------------------------------------------------

  /** The names in increasing order, each with its value. */
  ghost predicate Lists(ms: seq<Member>, m: map<Bytes, Value>) {
    Ascending(ms) && forall e :: e in ms <==> e.key in m && m[e.key] == e.value
  }

  ghost predicate Ascending(ms: seq<Member>) {
    forall i, j :: 0 <= i < j < |ms| ==> BytesBefore(ms[i].key, ms[j].key)
  }

  /** The value of a text; integers and reals as their numeral says. */
  ghost function Meaning(dr: DoubleReader, n: Node): Value {
    match n
    case NullNode => Null
    case TrueNode => Bool(true)
    case FalseNode => Bool(false)
    case NumberNode(m) => if NumeralMeaning(dr, m).Some? then NumeralMeaning(dr, m).value else Null
    case StringNode(ps) => Str(StringMeaning(ps))
    case EmptyArray(_) => Arr([])
    case ArrayNode(xs) => Arr(ItemsMeaning(dr, xs))
    case ObjectNode(ms) => Obj(Listing(MembersMeaning(dr, ms, map[])))
  }

  ghost function ItemsMeaning(dr: DoubleReader, xs: Items): seq<Value> {
    [Meaning(dr, xs.node)] + match xs
                             case LastItem(_, _, _) => []
                             case NextItem(_, _, _, rest) => ItemsMeaning(dr, rest)
  }

  /** Of several members of one name the last one counts. */
  ghost function MembersMeaning(dr: DoubleReader, ms: Members, m: map<Bytes, Value>): map<Bytes, Value> {
    match ms
    case Closed(_) => m
    case LastMember(e, _) => m[StringMeaning(e.name) := Meaning(dr, e.node)]
    case NextMember(e, _, _, rest) => MembersMeaning(dr, rest, m[StringMeaning(e.name) := Meaning(dr, e.node)])
  }

  /** Levels of nesting; a scalar has one. */
  function Levels(n: Node): nat {
    match n
    case ArrayNode(xs) => 1 + ItemsLevels(xs)
    case ObjectNode(ms) => 1 + MembersLevels(ms)
    case _ => 1
  }

  function ItemsLevels(xs: Items): nat {
    match xs
    case LastItem(_, node, _) => Levels(node)
    case NextItem(_, node, _, rest) => if Levels(node) > ItemsLevels(rest) then Levels(node) else ItemsLevels(rest)
  }

  function MembersLevels(ms: Members): nat {
    match ms
    case Closed(_) => 0
    case LastMember(e, _) => Levels(e.node)
    case NextMember(e, _, _, rest) =>
      if Levels(e.node) > MembersLevels(rest) then Levels(e.node) else MembersLevels(rest)
  }

  // ----- Lists of members ------------------------------------------------------------------

  /** The list of a map. */
  ghost function Listing(m: map<Bytes, Value>): (ms: seq<Member>)
    ensures Lists(ms, m)
  {
    Listed(m);
    var ms :| Lists(ms, m);
    ms
  }

  lemma {:induction false} Listed(m: map<Bytes, Value>)
    ensures exists ms :: Lists(ms, m)
    decreases |m|
  {
    if m == map[] {
      assert Lists([], m);
    } else {
      var key :| key in m;
      var rest := m - {key};
      assert key !in rest && m == rest[key := m[key]];
      Listed(rest);
      var ms :| Lists(ms, rest);
      PutLists(ms, rest, key, m[key]);
    }
  }

  /** Inserting or overwriting keeps a list the list of its map. */
  lemma PutLists(ms: seq<Member>, m: map<Bytes, Value>, key: Bytes, value: Value)
    requires Lists(ms, m)
    ensures Lists(Put(ms, key, value), m[key := value])
  {
    hide Put, Ascending;
    PutAscending(ms, key, value);
    forall e ensures e in Put(ms, key, value) <==> e.key in m[key := value] && m[key := value][e.key] == e.value {
      PutMembers(ms, key, value, e);
    }
  }

  /** The order of names is a total one. */
  lemma NamesOrdered(a: Bytes, b: Bytes)
    ensures LessBytes(a, b) <==> BytesBefore(a, b)
    ensures BytesBefore(a, b) || a == b || BytesBefore(b, a)
    ensures BytesBefore(a, b) ==> a != b && !BytesBefore(b, a)
  {
    hide *;
    BytesOrder(a, b);
    BytesOrder(b, a);
    BytesTrichotomy(a, b);
  }

  lemma NamesTransitive(a: Bytes, b: Bytes, c: Bytes)
    requires BytesBefore(a, b) && BytesBefore(b, c)
    ensures BytesBefore(a, c)
  {
    hide *;
    BytesOrder(a, b);
    BytesOrder(b, c);
    BytesTransitive(a, b, c);
    BytesOrder(a, c);
  }

  lemma AscendingCons(e: Member, ms: seq<Member>)
    ensures Ascending([e] + ms) <==> Ascending(ms) && forall x :: x in ms ==> BytesBefore(e.key, x.key)
  {
    hide BytesBefore;
    var all := [e] + ms;
    if Ascending(all) {
      forall i, j | 0 <= i < j < |ms| ensures BytesBefore(ms[i].key, ms[j].key) {
        assert all[i + 1] == ms[i] && all[j + 1] == ms[j];
      }
      forall x | x in ms ensures BytesBefore(e.key, x.key) {
        var j :| 0 <= j < |ms| && ms[j] == x;
        assert all[0] == e && all[j + 1] == x;
      }
    }
  }

  lemma {:induction false} PutAscending(ms: seq<Member>, key: Bytes, value: Value)
    requires Ascending(ms)
    ensures Ascending(Put(ms, key, value))
  {
    hide Ascending, BytesBefore, LessBytes;
    var e := Member(key, value);
    if ms == [] {
      AscendingCons(e, []);
      AscendingNone();
    } else {
      var rest := ms[1..];
      assert ms == [ms[0]] + rest;
      AscendingCons(ms[0], rest);
      NamesOrdered(key, ms[0].key);
      if LessBytes(key, ms[0].key) {
        forall x | x in ms ensures BytesBefore(key, x.key) {
          if x in rest { NamesTransitive(key, ms[0].key, x.key); }
        }
        AscendingCons(e, ms);
      } else if ms[0].key == key {
        AscendingCons(e, rest);
      } else {
        PutAscending(rest, key, value);
        forall x | x in Put(rest, key, value) ensures BytesBefore(ms[0].key, x.key) {
          PutMembers(rest, key, value, x);
        }
        AscendingCons(ms[0], Put(rest, key, value));
      }
    }
  }

  lemma AscendingNone()
    ensures Ascending([])
  {
  }

  lemma {:induction false} PutMembers(ms: seq<Member>, key: Bytes, value: Value, e: Member)
    requires Ascending(ms)
    ensures e in Put(ms, key, value) <==> e == Member(key, value) || (e.key != key && e in ms)
  {
    hide Ascending, BytesBefore, LessBytes;
    if ms != [] {
      var rest := ms[1..];
      assert ms == [ms[0]] + rest;
      AscendingCons(ms[0], rest);
      NamesOrdered(key, ms[0].key);
      if LessBytes(key, ms[0].key) {
        forall x | x in ms ensures x.key != key {
          if x in rest {
            NamesTransitive(key, ms[0].key, x.key);
            NamesOrdered(key, x.key);
          }
        }
      } else if ms[0].key == key {
        forall x | x in rest ensures x.key != key {
          NamesOrdered(ms[0].key, x.key);
        }
      } else {
        PutMembers(rest, key, value, e);
      }
    }
  }

  /** A map has one list. */
  lemma {:induction false} ListsOnce(ms: seq<Member>, ns: seq<Member>)
    requires Ascending(ms) && Ascending(ns) && forall e :: e in ms <==> e in ns
    ensures ms == ns
  {
    hide Ascending, BytesBefore;
    assert |ns| > 0 ==> ns[0] in ns;
    if ms != [] {
      assert ms[0] in ns;
      var p, q := ms[1..], ns[1..];
      assert ms == [ms[0]] + p && ns == [ns[0]] + q;
      AscendingCons(ms[0], p);
      AscendingCons(ns[0], q);
      assert ns[0] in ms;
      NamesOrdered(ms[0].key, ns[0].key);
      assert ms[0] == ns[0];
      forall e ensures e in p <==> e in q {
        NamesOrdered(ms[0].key, e.key);
        assert e in p <==> e in ms && e != ms[0];
        assert e in q <==> e in ns && e != ns[0];
      }
      ListsOnce(p, q);
    }
  }
}
