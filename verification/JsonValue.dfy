/**
  `Json::Value` trees, with the comparison operators `operator<` and `operator==`.

  A `realValue` holds a real number (so no NaN), an array is dense, and the
  members of an object are the entries of its `std::map` in key order.
 */
module JsonValue {

  type Byte = n: int | 0 <= n < 256

  type Bytes = seq<Byte>

  datatype Member = Member(key: Bytes, value: Value)

  /** The constructors in the order of `enum ValueType`. */
  datatype Value =
    | Null
    | Int(i: int)
    | UInt(u: nat)
    | Real(r: real)
    | Str(s: Bytes)
    | Bool(b: bool)
    | Arr(items: seq<Value>)
    | Obj(members: seq<Member>)

  /** The numeric value of `ValueType`. */
  function TypeOf(v: Value): nat {
    match v
    case Null => 0
    case Int(_) => 1
    case UInt(_) => 2
    case Real(_) => 3
    case Str(_) => 4
    case Bool(_) => 5
    case Arr(_) => 6
    case Obj(_) => 7
  }

  /** `memcmp` over the shorter length, then the lengths. */
  predicate LessBytes(a: Bytes, b: Bytes) {
    if a == [] || b == [] then |a| < |b|
    else if a[0] != b[0] then a[0] < b[0]
    else LessBytes(a[1..], b[1..])
  }

  /** The size of a tree, which both operands of a comparison shrink in. */
  ghost function Size(v: Value): nat {
    match v
    case Arr(xs) => 1 + SizeItems(xs)
    case Obj(ms) => 1 + SizeMembers(ms)
    case _ => 1
  }

  ghost function SizeItems(xs: seq<Value>): nat {
    if xs == [] then 0 else 1 + Size(xs[0]) + SizeItems(xs[1..])
  }

  ghost function SizeMembers(ms: seq<Member>): nat {
    if ms == [] then 0 else 1 + Size(ms[0].value) + SizeMembers(ms[1..])
  }

  const INT_RANGE := 0x1_0000_0000
  const INT_HALF := 0x8000_0000

  /** The cast of a difference of sizes to `int`: its low 32 bits, with a sign. */
  function Delta(a: nat, b: nat): (d: int)
    ensures -INT_HALF <= d < INT_HALF && (d == 0 <==> (a - b) % INT_RANGE == 0)
  {
    var m := (a - b) % INT_RANGE;
    if m < INT_HALF then m else m - INT_RANGE
  }

  /** `Value::operator<`; containers are compared by their size first, through `int`. */
  predicate Less(a: Value, b: Value)
    decreases Size(a) + Size(b)
  {
    if TypeOf(a) != TypeOf(b) then TypeOf(a) < TypeOf(b)
    else match a
      case Null => false
      case Int(i) => i < b.i
      case UInt(u) => u < b.u
      case Real(r) => r < b.r
      case Str(s) => LessBytes(s, b.s)
      case Bool(x) => !x && b.b
      case Arr(xs) => if Delta(|xs|, |b.items|) != 0 then Delta(|xs|, |b.items|) < 0 else LessItems(xs, b.items)
      case Obj(ms) => if Delta(|ms|, |b.members|) != 0 then Delta(|ms|, |b.members|) < 0 else LessMembers(ms, b.members)
  }

  /** `std::lexicographical_compare` on array entries; the indices are equal. */
  predicate LessItems(xs: seq<Value>, ys: seq<Value>)
    decreases SizeItems(xs) + SizeItems(ys)
  {
    if xs == [] || ys == [] then |xs| < |ys|
    else if Less(xs[0], ys[0]) then true
    else if Less(ys[0], xs[0]) then false
    else LessItems(xs[1..], ys[1..])
  }

  /** `std::lexicographical_compare` on the key-value pairs of two maps. */
  predicate LessMembers(ms: seq<Member>, ns: seq<Member>)
    decreases SizeMembers(ms) + SizeMembers(ns)
  {
    if ms == [] || ns == [] then |ms| < |ns|
    else if LessBytes(ms[0].key, ns[0].key) then true
    else if LessBytes(ns[0].key, ms[0].key) then false
    else if Less(ms[0].value, ns[0].value) then true
    else if Less(ns[0].value, ms[0].value) then false
    else LessMembers(ms[1..], ns[1..])
  }

  /** `Value::operator==` */
  predicate Equal(a: Value, b: Value) {
    if TypeOf(a) != TypeOf(b) then false
    else match a
      case Null => true
      case Int(i) => i == b.i
      case UInt(u) => u == b.u
      case Real(r) => r == b.r
      case Str(s) => |s| == |b.s| && s == b.s
      case Bool(x) => x == b.b
      case Arr(xs) => |xs| == |b.items| && EqualItems(xs, b.items)
      case Obj(ms) => |ms| == |b.members| && EqualMembers(ms, b.members)
  }

  predicate EqualItems(xs: seq<Value>, ys: seq<Value>) {
    if xs == [] || ys == [] then |xs| == |ys|
    else Equal(xs[0], ys[0]) && EqualItems(xs[1..], ys[1..])
  }

  predicate EqualMembers(ms: seq<Member>, ns: seq<Member>) {
    if ms == [] || ns == [] then |ms| == |ns|
    else ms[0].key == ns[0].key && Equal(ms[0].value, ns[0].value) && EqualMembers(ms[1..], ns[1..])
  }

  // ----- LessBytes is a strict total order ---------------------------------------

  lemma {:induction false} BytesTrichotomy(a: Bytes, b: Bytes)
    ensures LessBytes(a, b) || a == b || LessBytes(b, a)
    ensures LessBytes(a, b) ==> a != b && !LessBytes(b, a)
  {
    if a != [] && b != [] && a[0] == b[0] {
      BytesTrichotomy(a[1..], b[1..]);
      assert a == [a[0]] + a[1..] && b == [b[0]] + b[1..];
    }
  }

  lemma {:induction false} BytesTransitive(a: Bytes, b: Bytes, c: Bytes)
    requires LessBytes(a, b) && LessBytes(b, c)
    ensures LessBytes(a, c)
  {
    if a != [] && a[0] == b[0] == c[0] {
      BytesTransitive(a[1..], b[1..], c[1..]);
    }
  }

  // ----- Two trees ---------------------------------------------------------------------

  /** Sizes one way and the other. */
  lemma DeltaBack(a: nat, b: nat)
    ensures Delta(a, b) == 0 <==> Delta(b, a) == 0
    ensures Delta(a, b) == -INT_HALF <==> Delta(b, a) == -INT_HALF
    ensures -INT_HALF < Delta(a, b) ==> Delta(b, a) == -Delta(a, b)
    ensures a == b ==> Delta(a, b) == 0
  {
  }

  /** Two trees are ordered both ways: at the first place where they differ, the sizes of
      two containers differ by 2^31, up to multiples of 2^32. */
  predicate Clash(a: Value, b: Value)
    decreases Size(a) + Size(b)
  {
    TypeOf(a) == TypeOf(b) &&
    match a
    case Arr(xs) => Delta(|xs|, |b.items|) == -INT_HALF || (Delta(|xs|, |b.items|) == 0 && ClashItems(xs, b.items))
    case Obj(ms) => Delta(|ms|, |b.members|) == -INT_HALF
      || (Delta(|ms|, |b.members|) == 0 && ClashMembers(ms, b.members))
    case _ => false
  }

  predicate ClashItems(xs: seq<Value>, ys: seq<Value>)
    decreases SizeItems(xs) + SizeItems(ys)
  {
    xs != [] && ys != [] && (Clash(xs[0], ys[0]) || (xs[0] == ys[0] && ClashItems(xs[1..], ys[1..])))
  }

  predicate ClashMembers(ms: seq<Member>, ns: seq<Member>)
    decreases SizeMembers(ms) + SizeMembers(ns)
  {
    ms != [] && ns != [] && ms[0].key == ns[0].key &&
    (Clash(ms[0].value, ns[0].value) || (ms[0].value == ns[0].value && ClashMembers(ms[1..], ns[1..])))
  }

  /** Any two trees are equal or ordered; they are ordered both ways exactly when they clash. */
  lemma {:induction false} Trichotomy(a: Value, b: Value)
    ensures Less(a, b) || a == b || Less(b, a)
    ensures a == b ==> !Less(a, b)
    ensures Less(a, b) && Less(b, a) <==> Clash(a, b)
    decreases a
  {
    if TypeOf(a) == TypeOf(b) {
      match a
      case Str(s) => BytesTrichotomy(s, b.s);
      case Arr(xs) => {
        DeltaBack(|xs|, |b.items|);
        ItemsTrichotomy(xs, b.items);
        hide Delta;
      }
      case Obj(ms) => {
        DeltaBack(|ms|, |b.members|);
        MembersTrichotomy(ms, b.members);
        hide Delta;
      }
      case _ =>
    }
  }

  lemma {:induction false} ItemsTrichotomy(xs: seq<Value>, ys: seq<Value>)
    ensures LessItems(xs, ys) || xs == ys || LessItems(ys, xs)
    ensures xs == ys ==> !LessItems(xs, ys)
    ensures LessItems(xs, ys) && LessItems(ys, xs) <==> ClashItems(xs, ys)
    decreases xs
  {
    if xs != [] && ys != [] {
      hide Less, Clash, Size;
      Trichotomy(xs[0], ys[0]);
      ItemsTrichotomy(xs[1..], ys[1..]);
      assert xs == [xs[0]] + xs[1..] && ys == [ys[0]] + ys[1..];
    }
  }

  lemma {:induction false} MembersTrichotomy(ms: seq<Member>, ns: seq<Member>)
    ensures LessMembers(ms, ns) || ms == ns || LessMembers(ns, ms)
    ensures ms == ns ==> !LessMembers(ms, ns)
    ensures LessMembers(ms, ns) && LessMembers(ns, ms) <==> ClashMembers(ms, ns)
    decreases ms
  {
    if ms != [] && ns != [] {
      hide Less, Clash, Size, LessBytes;
      BytesTrichotomy(ms[0].key, ns[0].key);
      BytesTrichotomy(ns[0].key, ms[0].key);
      Trichotomy(ms[0].value, ns[0].value);
      MembersTrichotomy(ms[1..], ns[1..]);
      assert ms == [ms[0]] + ms[1..] && ns == [ns[0]] + ns[1..];
    }
  }

  // ----- Trees with bounded containers -----------------------------------------------------

  /** No container of the tree has more than `n` entries. */
  ghost predicate Within(v: Value, n: nat) {
    match v
    case Arr(xs) => |xs| <= n && forall k :: 0 <= k < |xs| ==> Within(xs[k], n)
    case Obj(ms) => |ms| <= n && forall k :: 0 <= k < |ms| ==> Within(ms[k].value, n)
    case _ => true
  }

  lemma DeltaExact(a: nat, b: nat)
    requires a < INT_HALF && b < INT_HALF
    ensures Delta(a, b) == a - b
  {
  }

  /** Below 2^31 entries no two trees clash. */
  lemma {:induction false} NoClash(a: Value, b: Value)
    requires Within(a, INT_HALF - 1) && Within(b, INT_HALF - 1)
    ensures !Clash(a, b)
    decreases a
  {
    if TypeOf(a) == TypeOf(b) {
      match a
      case Arr(xs) => {
        DeltaExact(|xs|, |b.items|);
        NoClashItems(xs, b.items);
      }
      case Obj(ms) => {
        DeltaExact(|ms|, |b.members|);
        NoClashMembers(ms, b.members);
      }
      case _ =>
    }
  }

  lemma {:induction false} NoClashItems(xs: seq<Value>, ys: seq<Value>)
    requires forall k :: 0 <= k < |xs| ==> Within(xs[k], INT_HALF - 1)
    requires forall k :: 0 <= k < |ys| ==> Within(ys[k], INT_HALF - 1)
    ensures !ClashItems(xs, ys)
    decreases xs
  {
    if xs != [] && ys != [] {
      hide Clash, Within;
      NoClash(xs[0], ys[0]);
      NoClashItems(xs[1..], ys[1..]);
    }
  }

  lemma {:induction false} NoClashMembers(ms: seq<Member>, ns: seq<Member>)
    requires forall k :: 0 <= k < |ms| ==> Within(ms[k].value, INT_HALF - 1)
    requires forall k :: 0 <= k < |ns| ==> Within(ns[k].value, INT_HALF - 1)
    ensures !ClashMembers(ms, ns)
    decreases ms
  {
    if ms != [] && ns != [] {
      hide Clash, Within;
      NoClash(ms[0].value, ns[0].value);
      NoClashMembers(ms[1..], ns[1..]);
    }
  }

  /** Two such trees are ordered one way or equal, and the order is that of the trees. */
  lemma Exactly(a: Value, b: Value)
    requires Within(a, INT_HALF - 1) && Within(b, INT_HALF - 1)
    ensures Less(a, b) || a == b || Less(b, a)
    ensures Less(a, b) ==> a != b && !Less(b, a)
  {
    hide Less, Clash, Within;
    Trichotomy(a, b);
    NoClash(a, b);
  }

  lemma {:induction false} Transitive(a: Value, b: Value, c: Value)
    requires Within(a, INT_HALF - 1) && Within(b, INT_HALF - 1) && Within(c, INT_HALF - 1)
    requires Less(a, b) && Less(b, c)
    ensures Less(a, c)
    decreases a
  {
    if TypeOf(a) == TypeOf(b) == TypeOf(c) {
      match a
      case Str(s) => BytesTransitive(s, b.s, c.s);
      case Arr(xs) => {
        DeltaExact(|xs|, |b.items|);
        DeltaExact(|b.items|, |c.items|);
        DeltaExact(|xs|, |c.items|);
        if |xs| == |b.items| == |c.items| { ItemsTransitive(xs, b.items, c.items); }
      }
      case Obj(ms) => {
        DeltaExact(|ms|, |b.members|);
        DeltaExact(|b.members|, |c.members|);
        DeltaExact(|ms|, |c.members|);
        if |ms| == |b.members| == |c.members| { MembersTransitive(ms, b.members, c.members); }
      }
      case _ =>
    }
  }

  lemma {:induction false} ItemsTransitive(xs: seq<Value>, ys: seq<Value>, zs: seq<Value>)
    requires |xs| == |ys| == |zs| && LessItems(xs, ys) && LessItems(ys, zs)
    requires forall k :: 0 <= k < |xs| ==>
             Within(xs[k], INT_HALF - 1) && Within(ys[k], INT_HALF - 1) && Within(zs[k], INT_HALF - 1)
    ensures LessItems(xs, zs)
    decreases xs
  {
    hide Less, Within, Size;
    var x, y, z := xs[0], ys[0], zs[0];
    Exactly(x, y);
    Exactly(y, z);
    Exactly(x, z);
    if Less(x, y) && Less(y, z) {
      Transitive(x, y, z);
    } else if x == y == z {
      ItemsTransitive(xs[1..], ys[1..], zs[1..]);
    }
  }

  lemma {:induction false} MembersTransitive(ms: seq<Member>, ns: seq<Member>, os: seq<Member>)
    requires |ms| == |ns| == |os| && LessMembers(ms, ns) && LessMembers(ns, os)
    requires forall k :: 0 <= k < |ms| ==>
               Within(ms[k].value, INT_HALF - 1) && Within(ns[k].value, INT_HALF - 1)
               && Within(os[k].value, INT_HALF - 1)
    ensures LessMembers(ms, os)
    decreases ms
  {
    hide Less, Within, Size, LessBytes;
    var m, n, o := ms[0], ns[0], os[0];
    BytesTrichotomy(m.key, n.key);
    BytesTrichotomy(n.key, o.key);
    BytesTrichotomy(m.key, o.key);
    if LessBytes(m.key, n.key) && LessBytes(n.key, o.key) {
      BytesTransitive(m.key, n.key, o.key);
    } else if m.key == n.key == o.key {
      Exactly(m.value, n.value);
      Exactly(n.value, o.value);
      Exactly(m.value, o.value);
      if Less(m.value, n.value) && Less(n.value, o.value) {
        Transitive(m.value, n.value, o.value);
      } else if m.value == n.value == o.value {
        MembersTransitive(ms[1..], ns[1..], os[1..]);
      }
    }
  }

  /** `operator<` orders all trees whose containers have at most `n` entries. */
  ghost predicate OrdersUpTo(n: nat) {
    && (forall a, b :: Within(a, n) && Within(b, n) ==> Less(a, b) || a == b || Less(b, a))
    && (forall a, b :: Within(a, n) && Within(b, n) && Less(a, b) ==> a != b && !Less(b, a))
    && (forall a, b, c :: Within(a, n) && Within(b, n) && Within(c, n) && Less(a, b) && Less(b, c) ==> Less(a, c))
  }

  lemma {:induction false} WithinMore(v: Value, m: nat, n: nat)
    requires Within(v, m) && m <= n
    ensures Within(v, n)
    decreases v
  {
    match v
    case Arr(xs) => forall k | 0 <= k < |xs| ensures Within(xs[k], n) { WithinMore(xs[k], m, n); }
    case Obj(ms) => forall k | 0 <= k < |ms| ensures Within(ms[k].value, n) { WithinMore(ms[k].value, m, n); }
    case _ =>
  }

  /** A strict total order exactly as long as containers have fewer than 2^31 entries. */
  lemma TotalOrderIff(n: nat)
    ensures OrdersUpTo(n) <==> n < INT_HALF
  {
    hide Less, Within;
    if n < INT_HALF {
      forall a, b | Within(a, n) && Within(b, n)
        ensures (Less(a, b) || a == b || Less(b, a)) && (Less(a, b) ==> a != b && !Less(b, a))
      {
        WithinMore(a, n, INT_HALF - 1);
        WithinMore(b, n, INT_HALF - 1);
        Exactly(a, b);
      }
      forall a, b, c | Within(a, n) && Within(b, n) && Within(c, n) && Less(a, b) && Less(b, c) ensures Less(a, c) {
        WithinMore(a, n, INT_HALF - 1);
        WithinMore(b, n, INT_HALF - 1);
        WithinMore(c, n, INT_HALF - 1);
        Transitive(a, b, c);
      }
    } else {
      var a, b := BothWays();
      WithinMore(a, INT_HALF, n);
      WithinMore(b, INT_HALF, n);
    }
  }

  /** The empty array and one with 2^31 entries are each less than the other. */
  lemma BothWays() returns (a: Value, b: Value)
    ensures Within(a, INT_HALF) && Within(b, INT_HALF) && Less(a, b) && Less(b, a)
  {
    var many := seq(INT_HALF, _ => Null);
    a, b := Arr([]), Arr(many);
    assert Delta(0, |many|) == -INT_HALF;
    DeltaBack(0, |many|);
    hide Delta;
  }

  // ----- Which order it is ------------------------------------------------------------

  /** Two byte strings at the first place where they differ, or a proper prefix and the longer one. */
  ghost predicate BytesBefore(a: Bytes, b: Bytes) {
    exists k :: 0 <= k <= |a| && k <= |b| && a[..k] == b[..k] &&
      ((k == |a| && k < |b|) || (k < |a| && k < |b| && a[k] < b[k]))
  }

  lemma {:induction false} BytesOrder(a: Bytes, b: Bytes)
    ensures LessBytes(a, b) <==> BytesBefore(a, b)
  {
    if a == [] || b == [] {
      if |a| < |b| { assert a[..0] == b[..0]; }
    } else if a[0] != b[0] {
      if a[0] < b[0] { assert a[..0] == b[..0]; }
      forall k | 1 <= k <= |a| && k <= |b| ensures a[..k] != b[..k] {
        assert a[..k][0] != b[..k][0];
      }
    } else {
      BytesOrder(a[1..], b[1..]);
      if k :| 0 <= k <= |a[1..]| && k <= |b[1..]| && a[1..][..k] == b[1..][..k] &&
              ((k == |a[1..]| && k < |b[1..]|) || (k < |a[1..]| && k < |b[1..]| && a[1..][k] < b[1..][k])) {
        assert a[..k + 1] == [a[0]] + a[1..][..k] && b[..k + 1] == [b[0]] + b[1..][..k];
      }
      if k :| 0 <= k <= |a| && k <= |b| && a[..k] == b[..k] &&
              ((k == |a| && k < |b|) || (k < |a| && k < |b| && a[k] < b[k])) {
        assert k > 0;
        assert a[1..][..k - 1] == a[..k][1..] && b[1..][..k - 1] == b[..k][1..];
      }
    }
  }

  /** Two arrays at their first different entries, or a proper prefix and the longer one. */
  ghost predicate ItemsBefore(xs: seq<Value>, ys: seq<Value>) {
    exists k :: 0 <= k <= |xs| && k <= |ys| && xs[..k] == ys[..k] &&
      ((k == |xs| && k < |ys|) || (k < |xs| && k < |ys| && Less(xs[k], ys[k])))
  }

  lemma {:induction false} ItemsOrder(xs: seq<Value>, ys: seq<Value>)
    ensures LessItems(xs, ys) <==> ItemsBefore(xs, ys)
  {
    hide Less;
    if xs == [] || ys == [] {
      if |xs| < |ys| { assert xs[..0] == ys[..0]; }
    } else {
      Trichotomy(xs[0], ys[0]);
      if xs[0] != ys[0] {
        if Less(xs[0], ys[0]) { assert xs[..0] == ys[..0]; }
        forall k | 1 <= k <= |xs| && k <= |ys| ensures xs[..k] != ys[..k] {
          assert xs[..k][0] != ys[..k][0];
        }
      } else {
        ItemsOrder(xs[1..], ys[1..]);
        if k :| 0 <= k <= |xs[1..]| && k <= |ys[1..]| && xs[1..][..k] == ys[1..][..k] &&
                ((k == |xs[1..]| && k < |ys[1..]|)
                 || (k < |xs[1..]| && k < |ys[1..]| && Less(xs[1..][k], ys[1..][k]))) {
          assert xs[..k + 1] == [xs[0]] + xs[1..][..k] && ys[..k + 1] == [ys[0]] + ys[1..][..k];
        }
        if k :| 0 <= k <= |xs| && k <= |ys| && xs[..k] == ys[..k] &&
                ((k == |xs| && k < |ys|) || (k < |xs| && k < |ys| && Less(xs[k], ys[k]))) {
          Trichotomy(xs[0], xs[0]);
          assert k > 0;
          assert xs[1..][..k - 1] == xs[..k][1..] && ys[1..][..k - 1] == ys[..k][1..];
        }
      }
    }
  }

  /** Key first, then value. */
  ghost predicate MemberBefore(m: Member, n: Member) {
    BytesBefore(m.key, n.key) || (m.key == n.key && Less(m.value, n.value))
  }

  ghost predicate MembersBefore(ms: seq<Member>, ns: seq<Member>) {
    exists k :: 0 <= k <= |ms| && k <= |ns| && ms[..k] == ns[..k] &&
      ((k == |ms| && k < |ns|) || (k < |ms| && k < |ns| && MemberBefore(ms[k], ns[k])))
  }

  lemma MemberOrder(m: Member, n: Member)
    ensures MemberBefore(m, n) <==> LessBytes(m.key, n.key) || (m.key == n.key && Less(m.value, n.value))
    ensures m == n ==> !MemberBefore(m, n)
    ensures m != n ==> MemberBefore(m, n) || LessBytes(n.key, m.key) || (m.key == n.key && Less(n.value, m.value))
  {
    hide Less, BytesBefore;
    BytesOrder(m.key, n.key);
    BytesTrichotomy(m.key, n.key);
    Trichotomy(m.value, n.value);
  }

  lemma {:induction false} MembersOrder(ms: seq<Member>, ns: seq<Member>)
    ensures LessMembers(ms, ns) <==> MembersBefore(ms, ns)
  {
    hide Less, LessBytes, MemberBefore;
    if ms == [] || ns == [] {
      if |ms| < |ns| { assert ms[..0] == ns[..0]; }
    } else {
      MemberOrder(ms[0], ns[0]);
      BytesTrichotomy(ms[0].key, ns[0].key);
      Trichotomy(ms[0].value, ns[0].value);
      if ms[0] != ns[0] {
        if MemberBefore(ms[0], ns[0]) { assert ms[..0] == ns[..0]; }
        forall k | 1 <= k <= |ms| && k <= |ns| ensures ms[..k] != ns[..k] {
          assert ms[..k][0] != ns[..k][0];
        }
      } else {
        MembersOrder(ms[1..], ns[1..]);
        if k :| 0 <= k <= |ms[1..]| && k <= |ns[1..]| && ms[1..][..k] == ns[1..][..k] &&
                ((k == |ms[1..]| && k < |ns[1..]|)
                 || (k < |ms[1..]| && k < |ns[1..]| && MemberBefore(ms[1..][k], ns[1..][k]))) {
          assert ms[..k + 1] == [ms[0]] + ms[1..][..k] && ns[..k + 1] == [ns[0]] + ns[1..][..k];
        }
        if k :| 0 <= k <= |ms| && k <= |ns| && ms[..k] == ns[..k] &&
                ((k == |ms| && k < |ns|) || (k < |ms| && k < |ns| && MemberBefore(ms[k], ns[k]))) {
          assert k > 0;
          assert ms[1..][..k - 1] == ms[..k][1..] && ns[1..][..k - 1] == ns[..k][1..];
        }
      }
    }
  }

  /** Values of different kinds: null, signed and unsigned integers, reals, strings, booleans, arrays,
      objects, in this order. */
  lemma KindOrder(a: Value, b: Value)
    ensures a.Null? ==> (Less(a, b) <==> !b.Null?)
    ensures a.Int? && !b.Int? ==> (Less(a, b) <==> b.UInt? || b.Real? || b.Str? || b.Bool? || b.Arr? || b.Obj?)
    ensures a.UInt? && !b.UInt? ==> (Less(a, b) <==> b.Real? || b.Str? || b.Bool? || b.Arr? || b.Obj?)
    ensures a.Real? && !b.Real? ==> (Less(a, b) <==> b.Str? || b.Bool? || b.Arr? || b.Obj?)
    ensures a.Str? && !b.Str? ==> (Less(a, b) <==> b.Bool? || b.Arr? || b.Obj?)
    ensures a.Bool? && !b.Bool? ==> (Less(a, b) <==> b.Arr? || b.Obj?)
    ensures a.Arr? && !b.Arr? ==> (Less(a, b) <==> b.Obj?)
    ensures a.Obj? && !b.Obj? ==> !Less(a, b)
  {
    hide LessItems, LessMembers, LessBytes;
  }

  /** Scalars of one kind: numbers by value, strings at their first different byte, false before true. */
  lemma ScalarOrder(a: Value, b: Value)
    ensures a.Int? && b.Int? ==> (Less(a, b) <==> a.i < b.i)
    ensures a.UInt? && b.UInt? ==> (Less(a, b) <==> a.u < b.u)
    ensures a.Real? && b.Real? ==> (Less(a, b) <==> a.r < b.r)
    ensures a.Bool? && b.Bool? ==> (Less(a, b) <==> a.b == false && b.b == true)
    ensures a.Str? && b.Str? ==> (Less(a, b) <==> BytesBefore(a.s, b.s))
  {
    hide LessItems, LessMembers, LessBytes, BytesBefore;
    if a.Str? && b.Str? { BytesOrder(a.s, b.s); }
  }

  /** Arrays and objects: by size, and then at their first different entries; from 2^31 entries on
      the sizes are compared by the low 32 bits of their difference, read as a signed number. */
  lemma ContainerOrder(a: Value, b: Value)
    ensures a.Arr? && b.Arr? && |a.items| < 0x8000_0000 && |b.items| < 0x8000_0000 ==>
              (Less(a, b) <==>
                 |a.items| < |b.items| || (|a.items| == |b.items| && ItemsBefore(a.items, b.items)))
    ensures a.Obj? && b.Obj? && |a.members| < 0x8000_0000 && |b.members| < 0x8000_0000 ==>
              (Less(a, b) <==>
                 |a.members| < |b.members| || (|a.members| == |b.members| && MembersBefore(a.members, b.members)))
    ensures a.Arr? && b.Arr? ==>
              var d := (|a.items| - |b.items|) % 0x1_0000_0000;
              (Less(a, b) <==> d >= 0x8000_0000 || (d == 0 && ItemsBefore(a.items, b.items)))
    ensures a.Obj? && b.Obj? ==>
              var d := (|a.members| - |b.members|) % 0x1_0000_0000;
              (Less(a, b) <==> d >= 0x8000_0000 || (d == 0 && MembersBefore(a.members, b.members)))
  {
    hide *;
    ContainerLess(a, b);
    if a.Arr? && b.Arr? {
      DeltaIs(|a.items|, |b.items|);
      ItemsOrder(a.items, b.items);
    }
    if a.Obj? && b.Obj? {
      DeltaIs(|a.members|, |b.members|);
      MembersOrder(a.members, b.members);
    }
  }

  lemma ContainerLess(a: Value, b: Value)
    ensures a.Arr? && b.Arr? ==> var d := Delta(|a.items|, |b.items|);
                                 (Less(a, b) <==> d < 0 || (d == 0 && LessItems(a.items, b.items)))
    ensures a.Obj? && b.Obj? ==> var d := Delta(|a.members|, |b.members|);
                                 (Less(a, b) <==> d < 0 || (d == 0 && LessMembers(a.members, b.members)))
  {
    hide Delta, LessItems, LessMembers, LessBytes;
  }

  lemma DeltaIs(a: nat, b: nat)
    ensures Delta(a, b) < 0 <==> (a - b) % 0x1_0000_0000 >= 0x8000_0000
    ensures Delta(a, b) == 0 <==> (a - b) % 0x1_0000_0000 == 0
    ensures a < 0x8000_0000 && b < 0x8000_0000 ==> Delta(a, b) == a - b
  {
  }

  // ----- Equal agrees with the order ------------------------------------------------

  lemma {:induction false} EqualIsIdentity(a: Value, b: Value)
    ensures Equal(a, b) <==> a == b
    decreases a
  {
    if TypeOf(a) == TypeOf(b) {
      match a
      case Arr(xs) => EqualItemsIdentity(xs, b.items);
      case Obj(ms) => EqualMembersIdentity(ms, b.members);
      case _ =>
    }
  }

  lemma {:induction false} EqualItemsIdentity(xs: seq<Value>, ys: seq<Value>)
    ensures EqualItems(xs, ys) <==> xs == ys
    decreases xs
  {
    if xs != [] && ys != [] {
      EqualIsIdentity(xs[0], ys[0]);
      EqualItemsIdentity(xs[1..], ys[1..]);
      assert xs == [xs[0]] + xs[1..] && ys == [ys[0]] + ys[1..];
    }
  }

  lemma {:induction false} EqualMembersIdentity(ms: seq<Member>, ns: seq<Member>)
    ensures EqualMembers(ms, ns) <==> ms == ns
    decreases ms
  {
    if ms != [] && ns != [] {
      EqualIsIdentity(ms[0].value, ns[0].value);
      EqualMembersIdentity(ms[1..], ns[1..]);
      assert ms == [ms[0]] + ms[1..] && ns == [ns[0]] + ns[1..];
    }
  }

  /** `operator==` holds exactly when neither tree is less than the other. */
  lemma EqualIffUnordered(a: Value, b: Value)
    ensures Equal(a, b) <==> !Less(a, b) && !Less(b, a)
  {
    EqualIsIdentity(a, b);
    Trichotomy(a, b);
    Trichotomy(b, a);
  }
}
