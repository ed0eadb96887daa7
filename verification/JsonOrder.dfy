/** The laws that operator== and operator< obey, and the values on which they stop obeying them. */
module JsonOrder {
  import opened Json

  /** Symmetry needs no restriction on the values. */
  lemma {:induction false} EqSymmetric(a: Json, b: Json)
    ensures JsonEq(a, b) == JsonEq(b, a)
  {
    match (a, b)
    case (Arr(x), Arr(y)) =>
      forall i | 0 <= i < |x| && i < |y| ensures JsonEq(x[i], y[i]) == JsonEq(y[i], x[i]) { EqSymmetric(x[i], y[i]); }
    case (Obj(x), Obj(y)) =>
      forall k | k in x && k in y ensures JsonEq(x[k], y[k]) == JsonEq(y[k], x[k]) { EqSymmetric(x[k], y[k]); }
    case _ =>
  }

  // ---------- reflexivity: exactly the values without NaN and without discarded parts ----------

  predicate Proper(j: Json) {
    match j
    case Arr(x) => forall i | 0 <= i < |x| :: Proper(x[i])
    case Obj(x) => forall k | k in x :: Proper(x[k])
    case Float(f) => !f.NaN?
    case Discarded => false
    case _ => true
  }

  lemma {:induction false} EqReflexiveIffProper(j: Json)
    ensures JsonEq(j, j) <==> Proper(j)
  {
    match j
    case Arr(x) =>
      forall i | 0 <= i < |x| ensures JsonEq(x[i], x[i]) <==> Proper(x[i]) { EqReflexiveIffProper(x[i]); }
    case Obj(x) =>
      forall k | k in x ensures JsonEq(x[k], x[k]) <==> Proper(x[k]) { EqReflexiveIffProper(x[k]); }
    case _ =>
  }

  // ---------- a domain on which comparing numbers is comparing their values ----------

  predicate IsDouble(n: int) {
    ToDouble(n) == Finite(n as real)
  }

  /**
   * Values without NaN and discarded parts, whose numbers convert to each other exactly: unsigned numbers fit
   * int64, and either there are no floating-point numbers or all integers are doubles.
   */
  predicate Plain(j: Json, floats: bool) {
    match j
    case Arr(x) => forall i | 0 <= i < |x| :: Plain(x[i], floats)
    case Obj(x) => forall k | k in x :: Plain(x[k], floats)
    case Int(i) => floats ==> IsDouble(i)
    case Unsigned(u) => u < TWO_TO_THE_63 && (floats ==> IsDouble(u))
    case Float(f) => floats && !f.NaN?
    case Discarded => false
    case _ => true
  }

  predicate IsNumber(j: Json) {
    j.Int? || j.Unsigned? || j.Float?
  }

  function NumberValue(j: Json): Double
    requires IsNumber(j)
  {
    match j
    case Int(i) => Finite(i as real)
    case Unsigned(u) => Finite(u as real)
    case Float(f) => f
  }

  lemma NumbersCompareByValue(a: Json, b: Json, floats: bool)
    requires IsNumber(a) && IsNumber(b) && Plain(a, floats) && Plain(b, floats)
    ensures JsonEq(a, b) <==> NumberValue(a) == NumberValue(b)
    ensures JsonLess(a, b) <==> DoubleLess(NumberValue(a), NumberValue(b))
  {
  }

  // ---------- both containers as lists of items ----------

  function Tagged(x: seq<Json>): seq<(string, Json)> {
    seq(|x|, i requires 0 <= i < |x| => ("", x[i]))
  }

  predicate ItemEq(x: (string, Json), y: (string, Json)) {
    x.0 == y.0 && JsonEq(x.1, y.1)
  }

  predicate ItemsEq(x: seq<(string, Json)>, y: seq<(string, Json)>) {
    |x| == |y| && forall i | 0 <= i < |x| :: ItemEq(x[i], y[i])
  }

  lemma ItemsEqTail(x: seq<(string, Json)>, y: seq<(string, Json)>)
    requires x != [] && y != []
    ensures ItemsEq(x, y) <==> ItemEq(x[0], y[0]) && ItemsEq(x[1..], y[1..])
  {
    if ItemEq(x[0], y[0]) && ItemsEq(x[1..], y[1..]) {
      forall i | 0 <= i < |x| ensures ItemEq(x[i], y[i]) {
        if i > 0 { assert x[i] == x[1..][i - 1] && y[i] == y[1..][i - 1]; }
      }
    }
  }

  lemma TaggedTail(x: seq<Json>)
    requires x != []
    ensures Tagged(x)[1..] == Tagged(x[1..]) && Tagged(x)[0] == ("", x[0])
  {}

  lemma {:induction false} TaggedDepth(x: seq<Json>)
    ensures ItemsDepth(Tagged(x)) == SeqDepth(x)
  {
    if x != [] {
      TaggedTail(x);
      TaggedDepth(x[1..]);
    }
  }

  lemma {:induction false} SeqLessAsItems(x: seq<Json>, y: seq<Json>)
    ensures SeqLess(x, y) == ItemsLess(Tagged(x), Tagged(y))
  {
    if x != [] && y != [] {
      TaggedTail(x);
      TaggedTail(y);
      SeqLessAsItems(x[1..], y[1..]);
    }
  }

  lemma SeqAsItems(x: seq<Json>, y: seq<Json>)
    ensures SeqLess(x, y) == ItemsLess(Tagged(x), Tagged(y))
    ensures JsonEq(Arr(x), Arr(y)) == ItemsEq(Tagged(x), Tagged(y))
    ensures ItemsDepth(Tagged(x)) == SeqDepth(x)
  {
    SeqLessAsItems(x, y);
    TaggedDepth(x);
    assert forall i | 0 <= i < |x| && i < |y| :: ItemEq(Tagged(x)[i], Tagged(y)[i]) == JsonEq(x[i], y[i]);
  }

  lemma ObjEqAsItems(x: map<string, Json>, y: map<string, Json>)
    ensures JsonEq(Obj(x), Obj(y)) == ItemsEq(Items(x), Items(y))
  {
    if JsonEq(Obj(x), Obj(y)) { ItemsOfEqual(x, y); }
    if ItemsEq(Items(x), Items(y)) {
      SameKeys(x, y);
      forall k | k in x ensures JsonEq(x[k], y[k]) { ItemAt(x, y, k); }
      assert JsonEq(Obj(x), Obj(y));
    }
  }

  lemma ItemsOfEqual(x: map<string, Json>, y: map<string, Json>)
    requires x.Keys == y.Keys && forall k | k in x :: JsonEq(x[k], y[k])
    ensures ItemsEq(Items(x), Items(y))
  {
    var ks := SortedKeys(x.Keys);
    forall i | 0 <= i < |ks| ensures ItemEq(Items(x)[i], Items(y)[i]) {
      assert Items(x)[i] == (ks[i], x[ks[i]]) && Items(y)[i] == (ks[i], y[ks[i]]);
    }
  }

  lemma SameKeys(x: map<string, Json>, y: map<string, Json>)
    requires ItemsEq(Items(x), Items(y))
    ensures x.Keys == y.Keys
  {
    var kx, ky := SortedKeys(x.Keys), SortedKeys(y.Keys);
    forall i | 0 <= i < |kx| ensures kx[i] == ky[i] { assert ItemEq(Items(x)[i], Items(y)[i]); }
    assert kx == ky;
    forall k ensures k in x.Keys <==> k in y.Keys { assert k in x.Keys <==> k in kx; }
  }

  lemma ItemAt(x: map<string, Json>, y: map<string, Json>, k: string)
    requires ItemsEq(Items(x), Items(y)) && k in x && k in y
    ensures JsonEq(x[k], y[k])
  {
    var kx := SortedKeys(x.Keys);
    var i :| 0 <= i < |kx| && kx[i] == k;
    assert ItemEq(Items(x)[i], Items(y)[i]);
  }

  predicate ItemsPlain(x: seq<(string, Json)>, floats: bool) {
    forall i | 0 <= i < |x| :: Plain(x[i].1, floats)
  }

  /** The elements of a container, in the order in which operator< visits them. */
  function Elements(j: Json): seq<(string, Json)>
    requires j.Arr? || j.Obj?
  {
    if j.Arr? then Tagged(j.a) else Items(j.o)
  }

  lemma ContainersCompareByElements(a: Json, b: Json)
    requires (a.Arr? && b.Arr?) || (a.Obj? && b.Obj?)
    ensures JsonLess(a, b) == ItemsLess(Elements(a), Elements(b))
    ensures JsonEq(a, b) == ItemsEq(Elements(a), Elements(b))
    ensures ItemsDepth(Elements(a)) < Depth(a)
  {
    if a.Arr? { ArraysAsItems(a.a, b.a); } else { ObjectsAsItems(a.o, b.o); }
  }

  lemma {:induction false} ArraysAsItems(x: seq<Json>, y: seq<Json>)
    ensures JsonLess(Arr(x), Arr(y)) == ItemsLess(Tagged(x), Tagged(y))
    ensures JsonEq(Arr(x), Arr(y)) == ItemsEq(Tagged(x), Tagged(y))
    ensures ItemsDepth(Tagged(x)) < Depth(Arr(x))
  {
    SeqAsItems(x, y);
  }

  lemma {:induction false} ObjectsAsItems(x: map<string, Json>, y: map<string, Json>)
    ensures JsonLess(Obj(x), Obj(y)) == ItemsLess(Items(x), Items(y))
    ensures JsonEq(Obj(x), Obj(y)) == ItemsEq(Items(x), Items(y))
    ensures ItemsDepth(Items(x)) < Depth(Obj(x))
  {
    ObjLessAsItems(x, y);
    ObjEqAsItems(x, y);
    ObjDepth(x);
  }

  lemma {:induction false} ObjLessAsItems(x: map<string, Json>, y: map<string, Json>)
    ensures JsonLess(Obj(x), Obj(y)) == ItemsLess(Items(x), Items(y))
  {
    ObjDepth(x);
    ObjDepth(y);
    var less := ItemsLess(Items(x), Items(y));
    assert JsonLess(Obj(x), Obj(y)) == less;
  }

  lemma ElementsPlain(j: Json, floats: bool)
    requires (j.Arr? || j.Obj?) && Plain(j, floats)
    ensures ItemsPlain(Elements(j), floats)
  {}

  function Rank(j: Json): nat {
    TypeRank(TypeOf(j))
  }

  lemma RankOrder(a: Json, b: Json)
    requires !a.Discarded? && !b.Discarded?
    ensures Rank(a) < Rank(b) ==> JsonLess(a, b)
    ensures JsonLess(a, b) ==> Rank(a) <= Rank(b)
    ensures JsonEq(a, b) ==> Rank(a) == Rank(b)
  {}

  // ---------- trichotomy ----------

  predicate ExactlyOne(p: bool, q: bool, r: bool) {
    (p && !q && !r) || (!p && q && !r) || (!p && !q && r)
  }

  lemma {:induction false} Trichotomy(a: Json, b: Json, floats: bool)
    requires Plain(a, floats) && Plain(b, floats)
    ensures ExactlyOne(JsonLess(a, b), JsonEq(a, b), JsonLess(b, a))
    decreases Depth(a), 0
  {
    if (a.Arr? && b.Arr?) || (a.Obj? && b.Obj?) {
      ContainersCompareByElements(a, b); ContainersCompareByElements(b, a);
      ElementsPlain(a, floats); ElementsPlain(b, floats);
      ItemsTrichotomy(Elements(a), Elements(b), floats);
    } else {
      ScalarTrichotomy(a, b, floats);
    }
  }

  lemma ScalarTrichotomy(a: Json, b: Json, floats: bool)
    requires Plain(a, floats) && Plain(b, floats)
    requires !(a.Arr? && b.Arr?) && !(a.Obj? && b.Obj?)
    ensures ExactlyOne(JsonLess(a, b), JsonEq(a, b), JsonLess(b, a))
  {
    RankOrder(a, b); RankOrder(b, a);
    if Rank(a) == Rank(b) {
      if a.Str? {
        StringLessTotal(a.s, b.s);
      } else if IsNumber(a) {
        NumberTrichotomy(a, b, floats);
      }
    }
  }

  lemma NumberTrichotomy(a: Json, b: Json, floats: bool)
    requires IsNumber(a) && IsNumber(b) && Plain(a, floats) && Plain(b, floats)
    ensures ExactlyOne(JsonLess(a, b), JsonEq(a, b), JsonLess(b, a))
  {
    NumbersCompareByValue(a, b, floats);
    NumbersCompareByValue(b, a, floats);
  }

  lemma {:induction false} ItemTrichotomy(x: (string, Json), y: (string, Json), floats: bool)
    requires Plain(x.1, floats) && Plain(y.1, floats)
    ensures ExactlyOne(ItemLess(x, y), ItemEq(x, y), ItemLess(y, x))
    decreases Depth(x.1), 1
  {
    StringLessTotal(x.0, y.0);
    Trichotomy(x.1, y.1, floats);
  }

  lemma {:induction false} ItemsTrichotomy(x: seq<(string, Json)>, y: seq<(string, Json)>, floats: bool)
    requires ItemsPlain(x, floats) && ItemsPlain(y, floats)
    ensures ExactlyOne(ItemsLess(x, y), ItemsEq(x, y), ItemsLess(y, x))
    decreases ItemsDepth(x), 2, |x|
  {
    if x != [] && y != [] {
      ItemTrichotomy(x[0], y[0], floats);
      ItemsEqTail(x, y);
      ItemsTrichotomy(x[1..], y[1..], floats);
    }
  }

  // ---------- transitivity, of operator==, of operator<, and of their mixtures ----------

  predicate JsonLe(a: Json, b: Json) {
    JsonLess(a, b) || JsonEq(a, b)
  }

  predicate ItemLe(x: (string, Json), y: (string, Json)) {
    ItemLess(x, y) || ItemEq(x, y)
  }

  predicate ItemsLe(x: seq<(string, Json)>, y: seq<(string, Json)>) {
    ItemsLess(x, y) || ItemsEq(x, y)
  }

  lemma StringLeTransitive(a: string, b: string, c: string)
    requires !StringLess(b, a) && !StringLess(c, b)
    ensures !StringLess(c, a)
    ensures StringLess(a, b) || StringLess(b, c) ==> StringLess(a, c)
  {
    StringLessTotal(a, b); StringLessTotal(b, c); StringLessTotal(a, c);
    if StringLess(a, b) && StringLess(b, c) { StringLessTransitive(a, b, c); }
  }

  lemma NumberTransitive(a: Json, b: Json, c: Json, floats: bool)
    requires IsNumber(a) && IsNumber(b) && IsNumber(c)
    requires Plain(a, floats) && Plain(b, floats) && Plain(c, floats)
    requires JsonLe(a, b) && JsonLe(b, c)
    ensures JsonLess(a, b) || JsonLess(b, c) ==> JsonLess(a, c)
    ensures JsonEq(a, b) && JsonEq(b, c) ==> JsonEq(a, c)
  {
    NumbersCompareByValue(a, b, floats);
    NumbersCompareByValue(b, c, floats);
    NumbersCompareByValue(a, c, floats);
    DoubleLessTransitive(NumberValue(a), NumberValue(b), NumberValue(c));
  }

  lemma DoubleLessTransitive(x: Double, y: Double, z: Double)
    requires DoubleLess(x, y) || x == y
    requires DoubleLess(y, z) || y == z
    ensures DoubleLess(x, y) || DoubleLess(y, z) ==> DoubleLess(x, z)
  {}

  lemma {:induction false} ScalarTransitive(a: Json, b: Json, c: Json, floats: bool)
    requires Plain(a, floats) && Plain(b, floats) && Plain(c, floats)
    requires Rank(a) == Rank(b) == Rank(c) && !a.Arr? && !a.Obj?
    requires JsonLe(a, b) && JsonLe(b, c)
    ensures JsonLess(a, b) || JsonLess(b, c) ==> JsonLess(a, c)
    ensures JsonEq(a, b) && JsonEq(b, c) ==> JsonEq(a, c)
  {
    if a.Str? {
      StringLessTotal(a.s, b.s); StringLessTotal(b.s, c.s);
      StringLeTransitive(a.s, b.s, c.s);
    } else if IsNumber(a) {
      NumberTransitive(a, b, c, floats);
    }
  }

  lemma {:induction false} Transitive(a: Json, b: Json, c: Json, floats: bool)
    requires Plain(a, floats) && Plain(b, floats) && Plain(c, floats)
    requires JsonLe(a, b) && JsonLe(b, c)
    ensures JsonLess(a, b) || JsonLess(b, c) ==> JsonLess(a, c)
    ensures JsonEq(a, b) && JsonEq(b, c) ==> JsonEq(a, c)
    decreases Depth(a), 0, 1
  {
    if Rank(a) == Rank(b) == Rank(c) {
      SameRankTransitive(a, b, c, floats);
    } else {
      DifferentRankTransitive(a, b, c);
    }
  }

  lemma {:induction false} SameRankTransitive(a: Json, b: Json, c: Json, floats: bool)
    requires Plain(a, floats) && Plain(b, floats) && Plain(c, floats)
    requires Rank(a) == Rank(b) == Rank(c) && JsonLe(a, b) && JsonLe(b, c)
    ensures JsonLess(a, b) || JsonLess(b, c) ==> JsonLess(a, c)
    ensures JsonEq(a, b) && JsonEq(b, c) ==> JsonEq(a, c)
    decreases Depth(a), 0, 0
  {
    if a.Arr? || a.Obj? {
      ContainersCompareByElements(a, b); ContainersCompareByElements(b, c); ContainersCompareByElements(a, c);
      ElementsPlain(a, floats); ElementsPlain(b, floats); ElementsPlain(c, floats);
      ItemsTransitive(Elements(a), Elements(b), Elements(c), floats);
    } else {
      ScalarTransitive(a, b, c, floats);
    }
  }

  lemma DifferentRankTransitive(a: Json, b: Json, c: Json)
    requires !a.Discarded? && !b.Discarded? && !c.Discarded?
    requires !(Rank(a) == Rank(b) == Rank(c)) && JsonLe(a, b) && JsonLe(b, c)
    ensures JsonLess(a, c) && !(JsonEq(a, b) && JsonEq(b, c))
  {
    RankOrder(a, b); RankOrder(b, c); RankOrder(a, c);
  }

  lemma {:induction false} ItemTransitive(x: (string, Json), y: (string, Json), z: (string, Json), floats: bool)
    requires Plain(x.1, floats) && Plain(y.1, floats) && Plain(z.1, floats)
    requires ItemLe(x, y) && ItemLe(y, z)
    ensures ItemLess(x, y) || ItemLess(y, z) ==> ItemLess(x, z)
    ensures ItemEq(x, y) && ItemEq(y, z) ==> ItemEq(x, z)
    decreases Depth(x.1), 1
  {
    StringLessTotal(x.0, y.0); StringLessTotal(y.0, z.0); StringLessTotal(x.0, z.0);
    StringLeTransitive(x.0, y.0, z.0);
    if x.0 == y.0 == z.0 { Transitive(x.1, y.1, z.1, floats); }
  }

  lemma {:induction false} ItemsTransitive(
      x: seq<(string, Json)>, y: seq<(string, Json)>, z: seq<(string, Json)>, floats: bool)
    requires ItemsPlain(x, floats) && ItemsPlain(y, floats) && ItemsPlain(z, floats)
    requires ItemsLe(x, y) && ItemsLe(y, z)
    ensures ItemsLess(x, y) || ItemsLess(y, z) ==> ItemsLess(x, z)
    ensures ItemsEq(x, y) && ItemsEq(y, z) ==> ItemsEq(x, z)
    decreases ItemsDepth(x), 2, |x|
  {
    if x != [] && y != [] && z != [] {
      ItemTrichotomy(x[0], y[0], floats); ItemTrichotomy(y[0], z[0], floats); ItemTrichotomy(x[0], z[0], floats);
      ItemsEqTail(x, y); ItemsEqTail(y, z); ItemsEqTail(x, z);
      ItemTransitive(x[0], y[0], z[0], floats);
      if ItemEq(x[0], y[0]) && ItemEq(y[0], z[0]) {
        ItemsTransitive(x[1..], y[1..], z[1..], floats);
      }
    }
  }

  /** The two operators together: on plain values == is an equivalence and < a strict total order modulo ==. */
  lemma StrictTotalOrderModuloEq(a: Json, b: Json, c: Json, floats: bool)
    requires Plain(a, floats) && Plain(b, floats) && Plain(c, floats)
    ensures JsonEq(a, a) && !JsonLess(a, a)
    ensures ExactlyOne(JsonLess(a, b), JsonEq(a, b), JsonLess(b, a))
    ensures JsonEq(a, b) && JsonEq(b, c) ==> JsonEq(a, c)
    ensures JsonLess(a, b) && JsonLess(b, c) ==> JsonLess(a, c)
    ensures JsonEq(a, b) ==> (JsonLess(a, c) <==> JsonLess(b, c)) && (JsonLess(c, a) <==> JsonLess(c, b))
  {
    Trichotomy(a, a, floats);
    Trichotomy(a, b, floats);
    OrderLaws(a, b, c, floats);
    if JsonEq(a, b) { EqCongruence(a, b, c, floats); }
  }

  lemma OrderLaws(a: Json, b: Json, c: Json, floats: bool)
    requires Plain(a, floats) && Plain(b, floats) && Plain(c, floats)
    ensures JsonEq(a, b) && JsonEq(b, c) ==> JsonEq(a, c)
    ensures JsonLess(a, b) && JsonLess(b, c) ==> JsonLess(a, c)
    ensures JsonEq(a, b) && JsonLess(b, c) ==> JsonLess(a, c)
    ensures JsonLess(a, b) && JsonEq(b, c) ==> JsonLess(a, c)
  {
    if JsonLe(a, b) && JsonLe(b, c) { Transitive(a, b, c, floats); }
  }

  lemma EqCongruence(a: Json, b: Json, c: Json, floats: bool)
    requires Plain(a, floats) && Plain(b, floats) && Plain(c, floats) && JsonEq(a, b)
    ensures JsonLess(a, c) <==> JsonLess(b, c)
    ensures JsonLess(c, a) <==> JsonLess(c, b)
  {
    EqSymmetric(a, b);
    OrderLaws(a, b, c, floats); OrderLaws(b, a, c, floats);
    OrderLaws(c, a, b, floats); OrderLaws(c, b, a, floats);
  }

  // ---------- the bounds that make a value plain are exact ----------

  /** Comparison with an unsigned number respects == exactly when it fits int64: 2^64-1 equals -1, yet exceeds 0. */
  lemma UnsignedBoundIsExact(u: uint64)
    ensures
      (forall i: int64, v: uint64 | v < TWO_TO_THE_63 && JsonEq(Unsigned(u), Int(i)) ::
         JsonLess(Int(i), Unsigned(v)) <==> JsonLess(Unsigned(u), Unsigned(v)))
      <==> u < TWO_TO_THE_63
  {
    if u >= TWO_TO_THE_63 {
      var i := ToInt64(u);
      assert JsonEq(Unsigned(u), Int(i)) && JsonLess(Int(i), Unsigned(0)) && !JsonLess(Unsigned(u), Unsigned(0));
    }
  }

  lemma RoundExact(m: nat)
    requires m <= TWO_TO_THE_53
    ensures RoundMagnitude(m) == m
  {
    if m == TWO_TO_THE_53 { assert Spacing(m) == 2 * Spacing(m / 2) == 2; }
  }

  lemma ToDoubleExact(n: int)
    requires -TWO_TO_THE_53 <= n <= TWO_TO_THE_53
    ensures IsDouble(n)
  {
    RoundExact(if n >= 0 then n else -n);
  }

  /** Together with floats, == is transitive on the integers up to a bound exactly when the bound is at most 2^53. */
  lemma IntegerBoundIsExact(bound: int)
    requires 0 <= bound < TWO_TO_THE_63
    ensures
      (forall n: int64, m: int64, f: Double |
         && -bound <= n <= bound && -bound <= m <= bound
         && JsonEq(Int(n), Float(f)) && JsonEq(Float(f), Int(m)) :: n == m)
      <==> bound <= TWO_TO_THE_53
  {
    if bound <= TWO_TO_THE_53 {
      forall n: int64, m: int64, f: Double |
        -bound <= n <= bound && -bound <= m <= bound && JsonEq(Int(n), Float(f)) && JsonEq(Float(f), Int(m))
        ensures n == m
      {
        ToDoubleExact(n); ToDoubleExact(m);
      }
    } else {
      RoundingBreaksTransitivity();
    }
  }

  /** 2^53 and 2^53 + 1 both equal the float 2^53. */
  lemma RoundingBreaksTransitivity()
    ensures var x, f, y := Int(TWO_TO_THE_53), Float(Finite(TWO_TO_THE_53 as real)), Int(TWO_TO_THE_53 + 1);
      JsonEq(x, f) && JsonEq(f, y) && !JsonEq(x, y) && JsonLess(x, y)
  {
    RoundExact(TWO_TO_THE_53);
    var m := TWO_TO_THE_53 + 1;
    assert Spacing(m) == 2 * Spacing(m / 2) == 2;
    assert m / 2 == TWO_TO_THE_53 / 2 && (m / 2) % 2 == 0;
    assert RoundMagnitude(m) == TWO_TO_THE_53;
  }
}
