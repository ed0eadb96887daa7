/** The value trees of nlohmann::basic_json and its two comparison operators. */
module Json {

  const TWO_TO_THE_63: int := 0x8000_0000_0000_0000
  const TWO_TO_THE_64: int := 0x1_0000_0000_0000_0000
  const TWO_TO_THE_53: int := 0x20_0000_0000_0000

  type int64 = n: int | -TWO_TO_THE_63 <= n < TWO_TO_THE_63
  type uint64 = n: int | 0 <= n < TWO_TO_THE_64

  /** A C++ double, up to the sign of zero and the payload of a NaN. */
  datatype Double = NaN | NegInf | Finite(v: real) | PosInf

  /** One constructor per value_t; an object is its std::map, so only the mapping matters. */
  datatype Json =
    | Null
    | Bool(b: bool)
    | Int(i: int64)
    | Unsigned(u: uint64)
    | Float(f: Double)
    | Str(s: string)
    | Arr(a: seq<Json>)
    | Obj(o: map<string, Json>)
    | Discarded

  datatype Kind = KNull | KBool | KInt | KUnsigned | KFloat | KStr | KArr | KObj | KDiscarded

  /** type() */
  function TypeOf(j: Json): Kind {
    match j
    case Null => KNull
    case Bool(_) => KBool
    case Int(_) => KInt
    case Unsigned(_) => KUnsigned
    case Float(_) => KFloat
    case Str(_) => KStr
    case Arr(_) => KArr
    case Obj(_) => KObj
    case Discarded => KDiscarded
  }

  // ---------- conversions between the number types ----------

  /** static_cast<int64_t> of an unsigned number: two's complement wrap-around. */
  function ToInt64(u: uint64): int64 {
    if u < TWO_TO_THE_63 then u else u - TWO_TO_THE_64
  }

  /** The spacing of doubles at magnitude m: the least power of two q with m < 2^53 * q. */
  function Spacing(m: nat): (q: nat)
    ensures q > 0
    ensures m < TWO_TO_THE_53 * q
  {
    if m < TWO_TO_THE_53 then 1 else 2 * Spacing(m / 2)
  }

  /** Round to nearest, ties to even, at 53 bits of precision. */
  function RoundMagnitude(m: nat): nat {
    var q := Spacing(m);
    var k, rest := m / q, m % q;
    if 2 * rest > q || (2 * rest == q && k % 2 == 1) then (k + 1) * q else k * q
  }

  /** static_cast<double> of an integer. */
  function ToDouble(n: int): Double {
    if n >= 0 then Finite(RoundMagnitude(n) as real) else Finite(-(RoundMagnitude(-n) as real))
  }

  predicate DoubleEq(x: Double, y: Double) {
    !x.NaN? && x == y
  }

  predicate DoubleLess(x: Double, y: Double) {
    match (x, y)
    case (NaN, _) => false
    case (_, NaN) => false
    case (Finite(v), Finite(w)) => v < w
    case (NegInf, _) => !y.NegInf?
    case (Finite(_), _) => y.PosInf?
    case (PosInf, _) => false
  }

  // ---------- operator== ----------

  predicate JsonEq(a: Json, b: Json) {
    match (a, b)
    case (Arr(x), Arr(y)) => |x| == |y| && forall i | 0 <= i < |x| :: JsonEq(x[i], y[i])
    case (Obj(x), Obj(y)) => x.Keys == y.Keys && forall k | k in x :: JsonEq(x[k], y[k])
    case (Null, Null) => true
    case (Str(x), Str(y)) => x == y
    case (Bool(x), Bool(y)) => x == y
    case (Int(x), Int(y)) => x == y
    case (Unsigned(x), Unsigned(y)) => x == y
    case (Float(x), Float(y)) => DoubleEq(x, y)
    case (Int(x), Float(y)) => DoubleEq(ToDouble(x), y)
    case (Float(x), Int(y)) => DoubleEq(x, ToDouble(y))
    case (Unsigned(x), Float(y)) => DoubleEq(ToDouble(x), y)
    case (Float(x), Unsigned(y)) => DoubleEq(x, ToDouble(y))
    case (Unsigned(x), Int(y)) => ToInt64(x) == y
    case (Int(x), Unsigned(y)) => x == ToInt64(y)
    case (_, _) => false
  }

  // ---------- operator< ----------

  /** std::string's operator<: lexicographic. */
  predicate StringLess(a: string, b: string) {
    if b == [] then false
    else if a == [] then true
    else a[0] < b[0] || (a[0] == b[0] && StringLess(a[1..], b[1..]))
  }

  lemma StringLessTotal(a: string, b: string)
    ensures !(StringLess(a, b) && StringLess(b, a))
    ensures StringLess(a, b) || StringLess(b, a) || a == b
    ensures a == b ==> !StringLess(a, b)
  {
    if a != [] && b != [] {
      StringLessTotal(a[1..], b[1..]);
      assert a == [a[0]] + a[1..] && b == [b[0]] + b[1..];
    }
  }

  lemma StringLessTransitive(a: string, b: string, c: string)
    requires StringLess(a, b) && StringLess(b, c)
    ensures StringLess(a, c)
  {
    if a != [] {
      if a[0] == b[0] == c[0] {
        StringLessTransitive(a[1..], b[1..], c[1..]);
      }
    }
  }

  predicate IsLeast(k: string, s: set<string>) {
    k in s && forall x | x in s :: x == k || StringLess(k, x)
  }

  lemma LeastExists(s: set<string>)
    requires s != {}
    ensures exists k :: IsLeast(k, s)
  {
    var x :| x in s;
    var rest := s - {x};
    assert s == {x} + rest;
    if rest == {} {
      assert IsLeast(x, s);
    } else {
      LeastExists(rest);
      var y :| IsLeast(y, rest);
      StringLessTotal(x, y);
      if StringLess(x, y) {
        forall z | z in s ensures z == x || StringLess(x, z) {
          assert z == x || z in rest;
          if z != x && z != y { StringLessTransitive(x, y, z); }
        }
        assert IsLeast(x, s);
      } else {
        assert IsLeast(y, s);
      }
    }
  }

  lemma LeastUnique(s: set<string>, x: string, y: string)
    requires IsLeast(x, s) && IsLeast(y, s)
    ensures x == y
  {
    StringLessTotal(x, y);
  }

  function Least(s: set<string>): (k: string)
    requires s != {}
    ensures IsLeast(k, s)
  {
    LeastExists(s);
    assert forall x, y | IsLeast(x, s) && IsLeast(y, s) :: x == y by {
      forall x, y | IsLeast(x, s) && IsLeast(y, s) ensures x == y { LeastUnique(s, x, y); }
    }
    var k :| k in s && IsLeast(k, s);
    k
  }

  /** The keys in the order in which a std::map is iterated. */
  function SortedKeys(s: set<string>): (ks: seq<string>)
    ensures forall k :: k in ks <==> k in s
    ensures |ks| == |s|
    ensures forall i, j | 0 <= i < j < |ks| :: StringLess(ks[i], ks[j])
  {
    if s == {} then [] else
      var k := Least(s);
      [k] + SortedKeys(s - {k})
  }

  /** The key/value pairs of an object in iteration order. */
  function Items(o: map<string, Json>): (items: seq<(string, Json)>)
    ensures |items| == |o.Keys|
    ensures forall i | 0 <= i < |items| :: items[i].0 in o && items[i].1 == o[items[i].0]
  {
    var ks := SortedKeys(o.Keys);
    seq(|ks|, i requires 0 <= i < |ks| => (ks[i], o[ks[i]]))
  }

  /** operator<(value_t, value_t): null < boolean < number < object < array < string. */
  function TypeRank(k: Kind): nat {
    match k
    case KNull => 0
    case KBool => 1
    case KInt => 2
    case KUnsigned => 2
    case KFloat => 2
    case KObj => 3
    case KArr => 4
    case KStr => 5
    case KDiscarded => 6
  }

  predicate TypeLess(x: Kind, y: Kind) {
    x != KDiscarded && y != KDiscarded && TypeRank(x) < TypeRank(y)
  }

  ghost function MaxOf(s: set<nat>): (m: nat)
    ensures forall x | x in s :: x <= m
  {
    if s == {} then 0 else
      var x :| x in s;
      var rest := MaxOf(s - {x});
      assert s == {x} + (s - {x});
      if x > rest then x else rest
  }

  /** Nesting depth: the termination measure of the comparisons, which swap their arguments. */
  ghost function Depth(j: Json): (d: nat)
    ensures j.Obj? ==> forall k | k in j.o :: Depth(j.o[k]) < d
    decreases j, 1
  {
    match j
    case Arr(x) => 1 + SeqDepth(x)
    case Obj(x) =>
      var depths := set k | k in x :: Depth(x[k]);
      assert forall k | k in x :: Depth(x[k]) in depths;
      1 + MaxOf(depths)
    case _ => 0
  }

  ghost function SeqDepth(x: seq<Json>): (d: nat)
    ensures forall i | 0 <= i < |x| :: Depth(x[i]) <= d
    decreases x, 0
  {
    if x == [] then 0 else
      var d, rest := Depth(x[0]), SeqDepth(x[1..]);
      if d > rest then d else rest
  }

  ghost function ItemsDepth(x: seq<(string, Json)>): nat {
    if x == [] then 0 else
      var d, rest := Depth(x[0].1), ItemsDepth(x[1..]);
      if d > rest then d else rest
  }

  lemma ItemsDepthBound(x: seq<(string, Json)>, d: nat)
    requires forall i | 0 <= i < |x| :: Depth(x[i].1) <= d
    ensures ItemsDepth(x) <= d
  {}

  lemma ObjDepth(o: map<string, Json>)
    ensures ItemsDepth(Items(o)) < Depth(Obj(o))
  {
    ItemsDepthBound(Items(o), Depth(Obj(o)) - 1);
  }

  predicate JsonLess(a: Json, b: Json)
    decreases Depth(a) + Depth(b), 0, 0
  {
    match (a, b)
    case (Arr(x), Arr(y)) => SeqLess(x, y)
    case (Obj(x), Obj(y)) => ObjDepth(x); ObjDepth(y); ItemsLess(Items(x), Items(y))
    case (Null, Null) => false
    case (Str(x), Str(y)) => StringLess(x, y)
    case (Bool(x), Bool(y)) => !x && y
    case (Int(x), Int(y)) => x < y
    case (Unsigned(x), Unsigned(y)) => x < y
    case (Float(x), Float(y)) => DoubleLess(x, y)
    case (Int(x), Float(y)) => DoubleLess(ToDouble(x), y)
    case (Float(x), Int(y)) => DoubleLess(x, ToDouble(y))
    case (Unsigned(x), Float(y)) => DoubleLess(ToDouble(x), y)
    case (Float(x), Unsigned(y)) => DoubleLess(x, ToDouble(y))
    case (Int(x), Unsigned(y)) => x < ToInt64(y)
    case (Unsigned(x), Int(y)) => ToInt64(x) < y
    case (_, _) => TypeLess(TypeOf(a), TypeOf(b))
  }

  /** std::vector's operator<: lexicographic comparison that uses only operator< of the elements. */
  predicate SeqLess(x: seq<Json>, y: seq<Json>)
    decreases SeqDepth(x) + SeqDepth(y), 1, |x|
  {
    if y == [] then false
    else if x == [] then true
    else if JsonLess(x[0], y[0]) then true
    else if JsonLess(y[0], x[0]) then false
    else SeqLess(x[1..], y[1..])
  }

  /** std::pair's operator<. */
  predicate ItemLess(x: (string, Json), y: (string, Json))
    decreases Depth(x.1) + Depth(y.1), 1, 0
  {
    StringLess(x.0, y.0) || (!StringLess(y.0, x.0) && JsonLess(x.1, y.1))
  }

  /** std::map's operator<: the same lexicographic comparison, over key/value pairs in key order. */
  predicate ItemsLess(x: seq<(string, Json)>, y: seq<(string, Json)>)
    decreases ItemsDepth(x) + ItemsDepth(y), 2, |x|
  {
    if y == [] then false
    else if x == [] then true
    else if ItemLess(x[0], y[0]) then true
    else if ItemLess(y[0], x[0]) then false
    else ItemsLess(x[1..], y[1..])
  }
}
