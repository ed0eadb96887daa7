/** In which direction operator< goes: between the types, and within each of them. */
module JsonOrderDirection {
  import opened Json
  import opened JsonOrder

  // ---------- between the types ----------

  /** null, booleans, numbers, objects, arrays, strings. */
  predicate EarlierType(x: Json, y: Json) {
    || (x.Null? && (y.Bool? || IsNumber(y) || y.Obj? || y.Arr? || y.Str?))
    || (x.Bool? && (IsNumber(y) || y.Obj? || y.Arr? || y.Str?))
    || (IsNumber(x) && (y.Obj? || y.Arr? || y.Str?))
    || (x.Obj? && (y.Arr? || y.Str?))
    || (x.Arr? && y.Str?)
  }

  /** Values of different types are in the order of their types; a discarded value is not comparable to anything. */
  lemma TypesInOrder(x: Json, y: Json)
    ensures EarlierType(x, y) ==> JsonLess(x, y) && !JsonLess(y, x)
    ensures x.Discarded? || y.Discarded? ==> !JsonLess(x, y) && !JsonEq(x, y)
    ensures x.Null? && y.Null? ==> !JsonLess(x, y) && JsonEq(x, y)
  {}

  // ---------- the order within one type ----------

  /** Booleans and integers; a comparison with a float is one of doubles. */
  lemma ScalarsInOrder(p: bool, q: bool, i: int64, j: int64, u: uint64, v: uint64, f: Double, g: Double)
    ensures JsonLess(Bool(p), Bool(q)) <==> p == false && q == true
    ensures JsonLess(Int(i), Int(j)) <==> i < j
    ensures JsonLess(Unsigned(u), Unsigned(v)) <==> u < v
    ensures JsonLess(Int(i), Float(f)) <==> JsonLess(Float(ToDouble(i)), Float(f))
    ensures JsonLess(Float(f), Int(i)) <==> JsonLess(Float(f), Float(ToDouble(i)))
    ensures JsonLess(Unsigned(u), Float(f)) <==> JsonLess(Float(ToDouble(u)), Float(f))
    ensures JsonLess(Float(f), Unsigned(u)) <==> JsonLess(Float(f), Float(ToDouble(u)))
    ensures JsonLess(Float(f), Float(g)) <==>
      f != NaN && g != NaN && f != PosInf && g != NegInf && (f == NegInf || g == PosInf || f.v < g.v)
  {}

  /** What an unsigned number is compared as: the one signed number to which it is congruent modulo 2^64. */
  lemma UnsignedAsSigned(u: uint64, i: int64, wrapped: int64)
    requires (u - wrapped) % 0x1_0000_0000_0000_0000 == 0
    ensures JsonEq(Unsigned(u), Int(i)) <==> wrapped == i
    ensures JsonLess(Unsigned(u), Int(i)) <==> wrapped < i
    ensures JsonLess(Int(i), Unsigned(u)) <==> i < wrapped
  {}

  /** The strings agree up to n, where the first one ends or has the smaller character. */
  predicate StringsDifferAt(a: string, b: string, n: nat) {
    n <= |a| && n < |b| && a[..n] == b[..n] && (n == |a| || a[n] < b[n])
  }

  lemma {:induction false} StringsByFirstDifference(a: string, b: string)
    ensures JsonLess(Str(a), Str(b)) <==> exists n: nat :: StringsDifferAt(a, b, n)
  {
    if a == [] || b == [] || a[0] != b[0] {
      if b != [] && (a == [] || a[0] < b[0]) { assert StringsDifferAt(a, b, 0); }
      forall n: nat | StringsDifferAt(a, b, n) ensures n == 0 { if n > 0 { SameHead(a, b, n); } }
    } else {
      StringsByFirstDifference(a[1..], b[1..]);
      forall n: nat ensures StringsDifferAt(a, b, n + 1) <==> StringsDifferAt(a[1..], b[1..], n) {
        SameTail(a, b, n);
      }
      if n: nat :| StringsDifferAt(a[1..], b[1..], n) { assert StringsDifferAt(a, b, n + 1); }
      if n: nat :| StringsDifferAt(a, b, n) { assert n > 0 && StringsDifferAt(a[1..], b[1..], n - 1); }
    }
  }

  lemma SameHead(a: string, b: string, n: nat)
    requires StringsDifferAt(a, b, n) && n > 0
    ensures a[0] == b[0]
  {
    assert a[0] == a[..n][0] && b[0] == b[..n][0];
  }

  lemma SameTail(a: string, b: string, n: nat)
    requires a != [] && b != [] && a[0] == b[0]
    ensures StringsDifferAt(a, b, n + 1) <==> StringsDifferAt(a[1..], b[1..], n)
  {
    if n < |a| && n + 1 < |b| {
      assert a[..n + 1] == [a[0]] + a[1..][..n] && b[..n + 1] == [b[0]] + b[1..][..n];
    }
  }

  /** The containers agree up to n, as far as < can tell, and there the first one ends or has the smaller item. */
  predicate ItemsDifferAt(x: seq<(string, Json)>, y: seq<(string, Json)>, n: nat) {
    && n <= |x| && n < |y|
    && (forall i | 0 <= i < n :: !ItemLess(x[i], y[i]) && !ItemLess(y[i], x[i]))
    && (n == |x| || ItemLess(x[n], y[n]))
  }

  lemma SameItemsTail(x: seq<(string, Json)>, y: seq<(string, Json)>, n: nat)
    requires x != [] && y != [] && !ItemLess(x[0], y[0]) && !ItemLess(y[0], x[0])
    ensures ItemsDifferAt(x, y, n + 1) <==> ItemsDifferAt(x[1..], y[1..], n)
  {
    if ItemsDifferAt(x, y, n + 1) {
      forall i | 0 <= i < n ensures !ItemLess(x[1..][i], y[1..][i]) && !ItemLess(y[1..][i], x[1..][i]) {
        assert !ItemLess(x[i + 1], y[i + 1]);
      }
    }
    if ItemsDifferAt(x[1..], y[1..], n) {
      forall i | 0 <= i < n + 1 ensures !ItemLess(x[i], y[i]) && !ItemLess(y[i], x[i]) {
        if i > 0 { assert !ItemLess(x[1..][i - 1], y[1..][i - 1]); }
      }
    }
  }

  lemma {:induction false} ItemsByFirstDifference(x: seq<(string, Json)>, y: seq<(string, Json)>)
    ensures ItemsLess(x, y) <==> exists n: nat :: ItemsDifferAt(x, y, n)
  {
    if x == [] || y == [] || ItemLess(x[0], y[0]) || ItemLess(y[0], x[0]) {
      if y != [] && (x == [] || ItemLess(x[0], y[0])) { assert ItemsDifferAt(x, y, 0); }
      forall n: nat | ItemsDifferAt(x, y, n) ensures n == 0 {}
    } else {
      ItemsByFirstDifference(x[1..], y[1..]);
      if n: nat :| ItemsDifferAt(x[1..], y[1..], n) {
        SameItemsTail(x, y, n);
        assert ItemsDifferAt(x, y, n + 1);
      }
      if n: nat :| ItemsDifferAt(x, y, n) { SameItemsTail(x, y, n - 1); }
    }
  }

  predicate ArraysDifferAt(x: seq<Json>, y: seq<Json>, n: nat) {
    && n <= |x| && n < |y|
    && (forall i | 0 <= i < n :: !JsonLess(x[i], y[i]) && !JsonLess(y[i], x[i]))
    && (n == |x| || JsonLess(x[n], y[n]))
  }

  /** Two objects in key order: the keys agree, then one key or value is smaller, or the first object ends. */
  predicate ObjectsDifferAt(x: map<string, Json>, y: map<string, Json>, n: nat) {
    MembersDifferAt(x, y, SortedKeys(x.Keys), SortedKeys(y.Keys), n)
  }

  predicate MembersDifferAt(
      x: map<string, Json>, y: map<string, Json>, kx: seq<string>, ky: seq<string>, n: nat)
    requires (forall k | k in kx :: k in x) && forall k | k in ky :: k in y
  {
    && n <= |kx| && n < |ky|
    && (forall i | 0 <= i < n ::
          kx[i] == ky[i] && !JsonLess(x[kx[i]], y[ky[i]]) && !JsonLess(y[ky[i]], x[kx[i]]))
    && (n == |kx| || JsonLess(Str(kx[n]), Str(ky[n])) || (kx[n] == ky[n] && JsonLess(x[kx[n]], y[ky[n]])))
  }

  /** Arrays by their first difference. */
  lemma ArraysByFirstDifference(x: seq<Json>, y: seq<Json>)
    ensures JsonLess(Arr(x), Arr(y)) <==> exists n: nat :: ArraysDifferAt(x, y, n)
  {
    SeqAsItems(x, y);
    ItemsByFirstDifference(Tagged(x), Tagged(y));
    if n: nat :| ItemsDifferAt(Tagged(x), Tagged(y), n) { TaggedDiffer(x, y, n); }
    if n: nat :| ArraysDifferAt(x, y, n) { TaggedDiffer(x, y, n); }
  }

  lemma TaggedDiffer(x: seq<Json>, y: seq<Json>, n: nat)
    ensures ItemsDifferAt(Tagged(x), Tagged(y), n) <==> ArraysDifferAt(x, y, n)
  {
    forall i | 0 <= i < |x| && i < |y|
      ensures ItemLess(Tagged(x)[i], Tagged(y)[i]) == JsonLess(x[i], y[i])
      ensures ItemLess(Tagged(y)[i], Tagged(x)[i]) == JsonLess(y[i], x[i])
    {}
  }

  /** Objects by their first difference in key order, which is that of StringsByFirstDifference. */
  lemma ObjectsByFirstDifference(x: map<string, Json>, y: map<string, Json>)
    ensures JsonLess(Obj(x), Obj(y)) <==> exists n: nat :: ObjectsDifferAt(x, y, n)
  {
    ContainersCompareByElements(Obj(x), Obj(y));
    ItemsByFirstDifference(Items(x), Items(y));
    if n: nat :| ItemsDifferAt(Items(x), Items(y), n) { MembersDiffer(x, y, n); }
    if n: nat :| ObjectsDifferAt(x, y, n) { MembersDiffer(x, y, n); }
  }

  lemma MemberLess(k: string, v: Json, l: string, w: Json)
    ensures ItemLess((k, v), (l, w)) <==> JsonLess(Str(k), Str(l)) || (k == l && JsonLess(v, w))
    ensures !ItemLess((k, v), (l, w)) && !ItemLess((l, w), (k, v)) <==> k == l && !JsonLess(v, w) && !JsonLess(w, v)
  {
    StringLessTotal(k, l);
  }

  lemma MembersDiffer(x: map<string, Json>, y: map<string, Json>, n: nat)
    ensures ItemsDifferAt(Items(x), Items(y), n) <==> ObjectsDifferAt(x, y, n)
  {
    PairsDiffer(x, y, SortedKeys(x.Keys), SortedKeys(y.Keys), Items(x), Items(y), n);
  }

  lemma PairsDiffer(
      x: map<string, Json>, y: map<string, Json>, kx: seq<string>, ky: seq<string>,
      xs: seq<(string, Json)>, ys: seq<(string, Json)>, n: nat)
    requires (forall k | k in kx :: k in x) && forall k | k in ky :: k in y
    requires |xs| == |kx| && forall i | 0 <= i < |kx| :: xs[i] == (kx[i], x[kx[i]])
    requires |ys| == |ky| && forall i | 0 <= i < |ky| :: ys[i] == (ky[i], y[ky[i]])
    ensures ItemsDifferAt(xs, ys, n) <==> MembersDifferAt(x, y, kx, ky, n)
  {
    forall i | 0 <= i < |kx| && i < |ky|
      ensures ItemLess(xs[i], ys[i]) <==>
        JsonLess(Str(kx[i]), Str(ky[i])) || (kx[i] == ky[i] && JsonLess(x[kx[i]], y[ky[i]]))
      ensures !ItemLess(xs[i], ys[i]) && !ItemLess(ys[i], xs[i]) <==>
        kx[i] == ky[i] && !JsonLess(x[kx[i]], y[ky[i]]) && !JsonLess(y[ky[i]], x[kx[i]])
    {
      MemberLess(kx[i], x[kx[i]], ky[i], y[ky[i]]);
    }
  }
}
