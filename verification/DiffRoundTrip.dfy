/** The invariant promised for diff: source.patch(diff(source, target)) == target. */
module DiffRoundTrip {
  import opened Results
  import opened Json
  import opened JsonOrder
  import opened JsonPointer
  import opened JsonPatch
  import opened PatchLifting
  import opened JsonDiff

  // ---------- what the patched source is, and when the patch applies ----------

  /** The target, except that parts which already compared equal keep the source's representation. */
  function Patched(source: Json, target: Json): Json {
    if JsonEq(source, target) then source
    else
      match (source, target)
      case (Arr(x), Arr(y)) =>
        Arr(seq(|y|, i requires 0 <= i < |y| => if i < |x| then Patched(x[i], y[i]) else y[i]))
      case (Obj(x), Obj(y)) => Obj(map k | k in y :: if k in x then Patched(x[k], y[k]) else y[k])
      case _ => target
  }

  /** No element that differs, and no element to add or remove, has an index above INT_MAX. */
  predicate IndicesFit(source: Json, target: Json)
    decreases source, 1
  {
    JsonEq(source, target) ||
    match (source, target)
    case (Arr(x), Arr(y)) => ElementsFit(source, target, 0) && LengthsFit(x, y)
    case (Obj(x), Obj(y)) => forall k | k in x && k in y :: IndicesFit(x[k], y[k])
    case _ => true
  }

  /** The indices of the elements to remove or to add. */
  predicate LengthsFit(x: seq<Json>, y: seq<Json>) {
    (|x| > |y| ==> |x| - 1 <= INT_MAX) && (|y| > |x| ==> |y| - 1 <= INT_MAX)
  }

  predicate ElementFits(source: Json, target: Json, i: nat)
    decreases source, 2
  {
    JsonEq(source, target) || (i <= INT_MAX && IndicesFit(source, target))
  }

  predicate ElementsFit(source: Json, target: Json, from: nat)
    requires source.Arr? && target.Arr?
    decreases source, 0
  {
    forall i | from <= i < Common(source.a, target.a) :: ElementFits(source.a[i], target.a[i], i)
  }

  // ---------- diff is empty exactly on equal values ----------

  lemma {:induction false} DiffEmptyIffEqual(source: Json, target: Json)
    ensures DiffOps(source, target) == [] <==> JsonEq(source, target)
    decreases source, 2
  {
    if source.Arr? && target.Arr? { ArrayOpsEmptyIffEqual(source, target); }
    if source.Obj? && target.Obj? { ObjectOpsEmptyIffEqual(source, target); }
  }

  /** The passes over the arrays find nothing exactly on equal arrays, whether or not the early return is taken. */
  lemma {:induction false} ArrayOpsEmptyIffEqual(source: Json, target: Json)
    requires source.Arr? && target.Arr?
    ensures ArrayOps(source, target) == [] <==> JsonEq(source, target)
    decreases source, 1
  {
    if JsonEq(source, target) {
      EqualElementsDiffNothing(source, target, 0);
    } else if |source.a| == |target.a| {
      var i :| 0 <= i < |source.a| && !JsonEq(source.a[i], target.a[i]);
      DiffElementsNonempty(source, target, 0, i);
    }
  }

  lemma {:induction false} EqualElementsDiffNothing(source: Json, target: Json, i: nat)
    requires source.Arr? && target.Arr? && JsonEq(source, target) && i <= |source.a|
    ensures DiffElements(source, target, i) == []
    decreases |source.a| - i
  {
    if i < |source.a| {
      assert JsonEq(source.a[i], target.a[i]);
      assert LiftAll([Numeral(i)], []) == [];
      EqualElementsDiffNothing(source, target, i + 1);
    }
  }

  /** The passes over the objects find nothing exactly on equal objects. */
  lemma {:induction false} ObjectOpsEmptyIffEqual(source: Json, target: Json)
    requires source.Obj? && target.Obj?
    ensures ObjectOps(source, target) == [] <==> JsonEq(source, target)
    decreases source, 1
  {
    if JsonEq(source, target) {
      EqualObjectsDiffNothing(source, target);
    } else {
      UnequalObjectsDiffer(source, target);
    }
  }

  lemma {:induction false} UnequalObjectsDiffer(source: Json, target: Json)
    requires source.Obj? && target.Obj? && !JsonEq(source, target)
    ensures ObjectOps(source, target) != []
    decreases source, 0
  {
    if source.o.Keys == target.o.Keys {
      var k := DifferingMember(source, target);
      DiffEmptyIffEqual(source.o[k], target.o[k]);
      MemberPassNonempty(source, target, k);
    } else {
      DifferentKeys(source, target);
    }
    var kx, ky := SortedKeys(source.o.Keys), SortedKeys(target.o.Keys);
    SumNonempty(DiffMembers(source, target, kx), AddMembers(source.o, target.o, ky));
  }

  lemma SumNonempty<T>(a: seq<T>, b: seq<T>)
    requires a != [] || b != []
    ensures a + b != []
  {}

  lemma EqualObjectsDiffNothing(source: Json, target: Json)
    requires source.Obj? && target.Obj? && source.o.Keys == target.o.Keys
    requires forall k | k in source.o :: JsonEq(source.o[k], target.o[k])
    ensures ObjectOps(source, target) == []
  {
    EqualMembersDiffNothing(source, target, SortedKeys(source.o.Keys));
    NothingToAdd(source.o, target.o, SortedKeys(target.o.Keys));
  }

  lemma {:induction false} EqualMembersDiffNothing(source: Json, target: Json, ks: seq<string>)
    requires source.Obj? && target.Obj?
    requires forall k | k in ks :: k in source.o && k in target.o && JsonEq(source.o[k], target.o[k])
    ensures DiffMembers(source, target, ks) == []
  {
    if ks != [] {
      assert LiftAll([ks[0]], []) == [];
      EqualMembersDiffNothing(source, target, ks[1..]);
    }
  }

  lemma {:induction false} NothingToAdd(x: map<string, Json>, y: map<string, Json>, ks: seq<string>)
    requires forall k | k in ks :: k in x && k in y
    ensures AddMembers(x, y, ks) == []
  {
    if ks != [] { NothingToAdd(x, y, ks[1..]); }
  }

  lemma DifferingMember(source: Json, target: Json) returns (k: string)
    requires source.Obj? && target.Obj? && source.o.Keys == target.o.Keys && !JsonEq(source, target)
    ensures k in source.o && !JsonEq(source.o[k], target.o[k])
  {
    k :| k in source.o && !JsonEq(source.o[k], target.o[k]);
  }

  lemma MemberPassNonempty(source: Json, target: Json, k: string)
    requires source.Obj? && target.Obj? && k in source.o
    requires k in target.o ==> DiffOps(source.o[k], target.o[k]) != []
    ensures DiffMembers(source, target, SortedKeys(source.o.Keys)) != []
  {
    DiffMembersNonempty(source, target, SortedKeys(source.o.Keys), k);
  }

  lemma DifferentKeys(source: Json, target: Json)
    requires source.Obj? && target.Obj? && source.o.Keys != target.o.Keys
    ensures DiffMembers(source, target, SortedKeys(source.o.Keys)) != []
      || AddMembers(source.o, target.o, SortedKeys(target.o.Keys)) != []
  {
    if k :| k in source.o.Keys && k !in target.o.Keys {
      MemberPassNonempty(source, target, k);
    } else {
      var k :| k in target.o.Keys && k !in source.o.Keys;
      AddMembersNonempty(source.o, target.o, SortedKeys(target.o.Keys), k);
    }
  }

  lemma {:induction false} DiffElementsNonempty(source: Json, target: Json, from: nat, i: nat)
    requires source.Arr? && target.Arr? && from <= i < Common(source.a, target.a)
    requires !JsonEq(source.a[i], target.a[i])
    ensures DiffElements(source, target, from) != []
    decreases source, 0, i - from
  {
    if from == i {
      DiffEmptyIffEqual(source.a[i], target.a[i]);
      assert |LiftAll([Numeral(i)], DiffOps(source.a[i], target.a[i]))| > 0;
    } else {
      DiffElementsNonempty(source, target, from + 1, i);
    }
  }

  lemma {:induction false} DiffMembersNonempty(source: Json, target: Json, ks: seq<string>, k: string)
    requires source.Obj? && target.Obj? && k in ks && forall r | r in ks :: r in source.o
    requires k in target.o ==> DiffOps(source.o[k], target.o[k]) != []
    ensures DiffMembers(source, target, ks) != []
  {
    if ks[0] == k {
      if k in target.o { assert |LiftAll([k], DiffOps(source.o[k], target.o[k]))| > 0; }
    } else {
      DiffMembersNonempty(source, target, ks[1..], k);
    }
  }

  lemma {:induction false} AddMembersNonempty(x: map<string, Json>, y: map<string, Json>, ks: seq<string>, k: string)
    requires k in ks && k !in x && forall r | r in ks :: r in y
    ensures AddMembers(x, y, ks) != []
  {
    if ks[0] != k { AddMembersNonempty(x, y, ks[1..], k); }
  }

  // ---------- every operation below the root is one that can be lifted ----------

  lemma LiftedKeepRoot(p: Path, ops: seq<Op>)
    requires p != []
    ensures AllKeepRoot(LiftAll(p, ops))
  {}

  lemma {:induction false} DiffKeepsRoot(source: Json, target: Json)
    ensures AllKeepRoot(DiffOps(source, target))
  {
    if !JsonEq(source, target) {
      if source.Arr? && target.Arr? { ArrayDiffKeepsRoot(source, target); }
      else if source.Obj? && target.Obj? { ObjectDiffKeepsRoot(source, target); }
    }
  }

  lemma ArrayDiffKeepsRoot(source: Json, target: Json)
    requires source.Arr? && target.Arr?
    ensures AllKeepRoot(ArrayOps(source, target))
  {
    var m := Common(source.a, target.a);
    ElementsKeepRoot(source, target, 0);
    RemovesKeepRoot(m, |source.a|);
    AppendsKeepRoot(target.a, m);
    KeepRootAppend(Removes(m, |source.a|), Appends(target.a, m));
    KeepRootAppend(DiffElements(source, target, 0), Removes(m, |source.a|) + Appends(target.a, m));
  }

  lemma ObjectDiffKeepsRoot(source: Json, target: Json)
    requires source.Obj? && target.Obj?
    ensures AllKeepRoot(ObjectOps(source, target))
  {
    var kx, ky := SortedKeys(source.o.Keys), SortedKeys(target.o.Keys);
    MembersKeepRoot(source, target, kx);
    AddMembersKeepRoot(source.o, target.o, ky);
    KeepRootAppend(DiffMembers(source, target, kx), AddMembers(source.o, target.o, ky));
  }

  lemma KeepRootAppend(a: seq<Op>, b: seq<Op>)
    requires AllKeepRoot(a) && AllKeepRoot(b)
    ensures AllKeepRoot(a + b)
  {}

  lemma {:induction false} ElementsKeepRoot(source: Json, target: Json, i: nat)
    requires source.Arr? && target.Arr? && i <= Common(source.a, target.a)
    ensures AllKeepRoot(DiffElements(source, target, i))
    decreases |source.a| - i
  {
    if i < Common(source.a, target.a) {
      LiftedKeepRoot([Numeral(i)], DiffOps(source.a[i], target.a[i]));
      ElementsKeepRoot(source, target, i + 1);
    }
  }

  lemma {:induction false} RemovesKeepRoot(m: nat, n: nat)
    ensures AllKeepRoot(Removes(m, n))
    decreases n
  {
    if m < n { RemovesKeepRoot(m, n - 1); }
  }

  lemma {:induction false} AppendsKeepRoot(y: seq<Json>, i: nat)
    ensures AllKeepRoot(Appends(y, i))
    decreases |y| - i
  {
    if i < |y| { AppendsKeepRoot(y, i + 1); }
  }

  lemma {:induction false} MembersKeepRoot(source: Json, target: Json, ks: seq<string>)
    requires source.Obj? && target.Obj? && forall r | r in ks :: r in source.o
    ensures AllKeepRoot(DiffMembers(source, target, ks))
  {
    if ks != [] {
      if ks[0] in target.o { LiftedKeepRoot([ks[0]], DiffOps(source.o[ks[0]], target.o[ks[0]])); }
      MembersKeepRoot(source, target, ks[1..]);
    }
  }

  lemma {:induction false} AddMembersKeepRoot(x: map<string, Json>, y: map<string, Json>, ks: seq<string>)
    requires forall r | r in ks :: r in y
    ensures AllKeepRoot(AddMembers(x, y, ks))
  {
    if ks != [] { AddMembersKeepRoot(x, y, ks[1..]); }
  }

  // ---------- arrays ----------

  /** Operations below an index that std::stoi cannot represent all throw. */
  lemma LiftedOverflow(a: seq<Json>, i: nat, ops: seq<Op>)
    requires i > INT_MAX && ops != [] && AllKeepRoot(ops)
    ensures ApplyOps(Arr(a), LiftAll([Numeral(i)], ops)) == Err(StdOutOfRange)
  {
    ArrayIndexOfNumeral(i);
    var t, op := [Numeral(i)], ops[0];
    assert CheckedIndex(Numeral(i), |a|) == Err(StdOutOfRange);
    forall q: Path ensures At(Arr(a), t + q) == Err(StdOutOfRange) && (t + q)[..1] == t {}
    match op
    case Add(q, v) => assert At(Arr(a), (t + q)[..1]) == Err(StdOutOfRange);
    case Remove(q) => assert Front(t + q) == t + Front(q);
    case Replace(q, v) =>
    case Move(from, q) =>
    case Copy(from, q) =>
    case Test(q, v) =>
  }

  /** The source array after its first n elements have been patched. */
  function Mixed(x: seq<Json>, y: seq<Json>, n: nat): (r: seq<Json>)
    requires n <= Common(x, y)
    ensures |r| == |x|
    ensures forall j | 0 <= j < n :: r[j] == Patched(x[j], y[j])
    ensures forall j | n <= j < |x| :: r[j] == x[j]
  {
    seq(|x|, j requires 0 <= j < |x| => if j < n then Patched(x[j], y[j]) else x[j])
  }

  lemma ElementLocation(a: seq<Json>, i: nat, v: Json)
    requires i < |a| && i <= INT_MAX
    ensures At(Arr(a), [Numeral(i)]) == Ok(a[i])
    ensures Put(Arr(a), [Numeral(i)], v) == Arr(a[i := v])
  {
    ArrayIndexOfNumeral(i);
    assert IsDigit(Numeral(i)[0]);
    assert CheckedIndex(Numeral(i), |a|) == Ok(i);
  }

  lemma {:induction false} ElementApply(source: Json, target: Json, a: seq<Json>, i: nat)
    requires i < |a| && a[i] == source
    ensures ApplyOps(Arr(a), LiftAll([Numeral(i)], DiffOps(source, target))) ==
      if ElementFits(source, target, i) then Ok(Arr(a[i := Patched(source, target)])) else Err(StdOutOfRange)
    decreases source, 5
  {
    var ops := DiffOps(source, target);
    DiffEmptyIffEqual(source, target);
    DiffKeepsRoot(source, target);
    if ops == [] {
      assert a[i := source] == a;
    } else if i > INT_MAX {
      LiftedOverflow(a, i, ops);
    } else {
      DiffOpsApply(source, target);
      ElementLocation(a, i, Patched(source, target));
      LiftOps(Arr(a), [Numeral(i)], ops);
    }
  }

  lemma {:induction false} ElementsApply(source: Json, target: Json, i: nat)
    requires source.Arr? && target.Arr? && i <= Common(source.a, target.a)
    ensures ApplyOps(Arr(Mixed(source.a, target.a, i)), DiffElements(source, target, i)) ==
      if ElementsFit(source, target, i) then Ok(Arr(Mixed(source.a, target.a, Common(source.a, target.a))))
      else Err(StdOutOfRange)
    decreases source, 0, |source.a| - i
  {
    var x, y := source.a, target.a;
    if i < Common(x, y) {
      var now := Mixed(x, y, i);
      ApplyOpsAppend(Arr(now), LiftAll([Numeral(i)], DiffOps(x[i], y[i])), DiffElements(source, target, i + 1));
      ElementApply(x[i], y[i], now, i);
      if ElementFits(x[i], y[i], i) {
        assert Mixed(x, y, i + 1) == now[i := Patched(x[i], y[i])];
        ElementsApply(source, target, i + 1);
      }
    }
  }

  lemma RemoveLast(a: seq<Json>, n: nat)
    requires |a| == n + 1
    ensures ApplyOp(Arr(a), Remove([Numeral(n)])) == if n <= INT_MAX then Ok(Arr(a[..n])) else Err(StdOutOfRange)
  {
    ArrayIndexOfNumeral(n);
    EditOfRoot(Arr(a), Numeral(n), Null);
    assert Erase(a, n) == a[..n];
  }

  lemma AppendOne(a: seq<Json>, n: nat, v: Json)
    requires |a| == n
    ensures ApplyOp(Arr(a), Add([Numeral(n)], v)) == if n <= INT_MAX then Ok(Arr(a + [v])) else Err(StdOutOfRange)
  {
    ArrayIndexOfNumeral(n);
    EditOfRoot(Arr(a), Numeral(n), v);
    assert IsDigit(Numeral(n)[0]);
    assert Insert(a, n, v) == a + [v];
  }

  lemma ApplyOpsCons(doc: Json, op: Op, rest: seq<Op>)
    ensures ApplyOps(doc, [op] + rest) ==
      if ApplyOp(doc, op).Ok? then ApplyOps(ApplyOp(doc, op).value, rest) else ApplyOp(doc, op)
  {
    assert ([op] + rest)[1..] == rest;
  }

  lemma RemoveThen(a: seq<Json>, n: nat, rest: seq<Op>)
    requires |a| == n + 1
    ensures ApplyOps(Arr(a), [Remove([Numeral(n)])] + rest) ==
      if n <= INT_MAX then ApplyOps(Arr(a[..n]), rest) else Err(StdOutOfRange)
  {
    RemoveLast(a, n);
    ApplyOpsCons(Arr(a), Remove([Numeral(n)]), rest);
  }

  lemma AppendThen(a: seq<Json>, n: nat, v: Json, rest: seq<Op>)
    requires |a| == n
    ensures ApplyOps(Arr(a), [Add([Numeral(n)], v)] + rest) ==
      if n <= INT_MAX then ApplyOps(Arr(a + [v]), rest) else Err(StdOutOfRange)
  {
    AppendOne(a, n, v);
    ApplyOpsCons(Arr(a), Add([Numeral(n)], v), rest);
  }

  /** The removals go from the highest index down, so each of them finds its element last in the array. */
  lemma {:induction false} RemovesApply(a: seq<Json>, m: nat, n: nat)
    requires m <= n == |a|
    ensures ApplyOps(Arr(a), Removes(m, n)) ==
      if m == n || n - 1 <= INT_MAX then Ok(Arr(a[..m])) else Err(StdOutOfRange)
    decreases n
  {
    if m == n {
      TakeAll(a, m);
      assert ApplyOps(Arr(a), []) == Ok(Arr(a));
    } else {
      var op, rest := Remove([Numeral(n - 1)]), Removes(m, n - 1);
      assert Removes(m, n) == [op] + rest;
      RemoveThen(a, n - 1, rest);
      if n - 1 <= INT_MAX {
        RemovesApply(a[..n - 1], m, n - 1);
        TakeTake(a, n - 1, m);
      }
    }
  }

  lemma TakeTake<T>(a: seq<T>, n: nat, m: nat)
    requires m <= n <= |a|
    ensures a[..n][..m] == a[..m]
  {}

  lemma TakeAll<T>(a: seq<T>, n: nat)
    requires n == |a|
    ensures a[..n] == a
  {}

  lemma AppendNext<T>(a: seq<T>, y: seq<T>, n: nat)
    requires n < |y|
    ensures (a + [y[n]]) + y[n + 1..] == a + y[n..]
  {}

  lemma {:induction false} AppendsApply(a: seq<Json>, y: seq<Json>, n: nat)
    requires |a| == n <= |y|
    ensures ApplyOps(Arr(a), Appends(y, n)) ==
      if n == |y| || |y| - 1 <= INT_MAX then Ok(Arr(a + y[n..])) else Err(StdOutOfRange)
    decreases |y| - n
  {
    if n < |y| {
      AppendThen(a, n, y[n], Appends(y, n + 1));
      if n <= INT_MAX {
        AppendsApply(a + [y[n]], y, n + 1);
        AppendNext(a, y, n);
      }
    } else {
      assert a + y[n..] == a;
    }
  }

  /** The removals of diff, as a list: strictly descending indices from the last element to the common length. */
  lemma {:induction false} RemovesDescend(m: nat, n: nat, k: nat)
    requires m + k < n
    ensures |Removes(m, n)| == n - m && Removes(m, n)[k] == Remove([Numeral(n - 1 - k)])
    decreases n
  {
    var rest := Removes(m, n - 1);
    assert Removes(m, n) == [Remove([Numeral(n - 1)])] + rest;
    if m + 1 < n {
      RemovesDescend(m, n - 1, if k > 0 then k - 1 else 0);
    } else {
      assert rest == [];
    }
  }

  /** The second and third pass, on the array that the first pass leaves. */
  lemma TailsApply(mixed: seq<Json>, y: seq<Json>)
    ensures ApplyOps(Arr(mixed), Removes(Common(mixed, y), |mixed|) + Appends(y, Common(mixed, y))) ==
      if LengthsFit(mixed, y) then Ok(Arr(mixed[..Common(mixed, y)] + y[Common(mixed, y)..])) else Err(StdOutOfRange)
  {
    var m := Common(mixed, y);
    ApplyOpsAppend(Arr(mixed), Removes(m, |mixed|), Appends(y, m));
    RemovesApply(mixed, m, |mixed|);
    AppendsApply(mixed[..m], y, m);
  }

  lemma {:induction false} PassesApply(source: Json, target: Json)
    requires source.Arr? && target.Arr?
    ensures var x, y := source.a, target.a;
      var m := Common(x, y);
      ApplyOps(source, ArrayOps(source, target)) ==
      if ElementsFit(source, target, 0) && LengthsFit(x, y) then Ok(Arr(Mixed(x, y, m)[..m] + y[m..]))
      else Err(StdOutOfRange)
    decreases source, 1
  {
    var x, y := source.a, target.a;
    var m := Common(x, y);
    assert Mixed(x, y, 0) == x;
    ElementsApply(source, target, 0);
    ApplyOpsAppend(source, DiffElements(source, target, 0), Removes(m, |x|) + Appends(y, m));
    TailsApply(Mixed(x, y, m), y);
  }

  lemma {:induction false} ArrayApply(source: Json, target: Json)
    requires source.Arr? && target.Arr? && !JsonEq(source, target)
    ensures ApplyOps(source, DiffOps(source, target)) ==
      if IndicesFit(source, target) then Ok(Patched(source, target)) else Err(StdOutOfRange)
    decreases source, 2
  {
    PassesApply(source, target);
    PatchedArray(source, target);
  }

  lemma PatchedArray(source: Json, target: Json)
    requires source.Arr? && target.Arr? && !JsonEq(source, target)
    ensures var m := Common(source.a, target.a);
      Patched(source, target) == Arr(Mixed(source.a, target.a, m)[..m] + target.a[m..])
  {}

  // ---------- objects ----------

  predicate MembersFit(source: Json, target: Json, ks: seq<string>)
    requires source.Obj? && target.Obj? && forall r | r in ks :: r in source.o
  {
    forall k | k in ks && k in target.o :: IndicesFit(source.o[k], target.o[k])
  }

  predicate Distinct(ks: seq<string>) {
    forall i, j | 0 <= i < j < |ks| :: ks[i] != ks[j]
  }

  /** The document d once the members named in ks have been patched or removed. */
  ghost predicate MembersDone(d: map<string, Json>, source: Json, target: Json, ks: seq<string>, r: map<string, Json>)
    requires source.Obj? && target.Obj? && forall k | k in ks :: k in source.o
  {
    && (forall k :: k in r <==> if k in ks then k in target.o else k in d)
    && (forall k | k in r :: r[k] == if k in ks then Patched(source.o[k], target.o[k]) else d[k])
  }

  /** The document once the members that the source lacks have been added to it. */
  ghost predicate MembersAdded(source: Json, target: Json, kept: map<string, Json>, all: map<string, Json>)
    requires source.Obj? && target.Obj?
  {
    && (forall k :: k in all <==> k in kept || (k in target.o && k !in source.o))
    && (forall k | k in all :: all[k] == if k in target.o && k !in source.o then target.o[k] else kept[k])
  }

  lemma {:induction false} MembersApply(source: Json, target: Json, ks: seq<string>, d: map<string, Json>)
    returns (r: map<string, Json>)
    requires source.Obj? && target.Obj? && forall k | k in ks :: k in source.o && k in d && d[k] == source.o[k]
    requires Distinct(ks)
    ensures MembersFit(source, target, ks) ==>
      ApplyOps(Obj(d), DiffMembers(source, target, ks)) == Ok(Obj(r)) && MembersDone(d, source, target, ks, r)
    ensures !MembersFit(source, target, ks) ==>
      ApplyOps(Obj(d), DiffMembers(source, target, ks)) == Err(StdOutOfRange)
    decreases source, 0, |ks|
  {
    r := d;
    if ks != [] {
      var k, rest := ks[0], ks[1..];
      assert ks == [k] + rest && k !in rest;
      var next;
      var first := if k in target.o then LiftAll([k], DiffOps(source.o[k], target.o[k])) else [Remove([k])];
      ApplyOpsAppend(Obj(d), first, DiffMembers(source, target, rest));
      if k in target.o {
        MemberApply(source, target, k, d);
        next := d[k := Patched(source.o[k], target.o[k])];
      } else {
        assert Front([k]) == [] && Last([k]) == k;
        next := d - {k};
        assert ApplyOps(Obj(next), []) == Ok(Obj(next));
        assert ApplyOps(Obj(d), first) == Ok(Obj(next));
      }
      r := MembersApply(source, target, rest, next);
    }
  }

  lemma MemberLocation(d: map<string, Json>, k: string, v: Json)
    requires k in d
    ensures At(Obj(d), [k]) == Ok(d[k]) && Put(Obj(d), [k], v) == Obj(d[k := v])
  {
    assert [k][1..] == [];
  }

  lemma {:induction false} MemberApply(source: Json, target: Json, k: string, d: map<string, Json>)
    requires source.Obj? && target.Obj? && k in source.o && k in target.o && k in d && d[k] == source.o[k]
    ensures ApplyOps(Obj(d), LiftAll([k], DiffOps(source.o[k], target.o[k]))) ==
      if IndicesFit(source.o[k], target.o[k]) then Ok(Obj(d[k := Patched(source.o[k], target.o[k])]))
      else Err(StdOutOfRange)
    decreases source, 0, 0
  {
    DiffOpsApply(source.o[k], target.o[k]);
    DiffKeepsRoot(source.o[k], target.o[k]);
    MemberLocation(d, k, Patched(source.o[k], target.o[k]));
    LiftOps(Obj(d), [k], DiffOps(source.o[k], target.o[k]));
  }

  lemma {:induction false} AddMembersApply(
      x: map<string, Json>, y: map<string, Json>, ks: seq<string>, d: map<string, Json>)
    returns (r: map<string, Json>)
    requires forall k | k in ks :: k in y
    ensures ApplyOps(Obj(d), AddMembers(x, y, ks)) == Ok(Obj(r))
    ensures forall k :: k in r <==> k in d || (k in ks && k !in x)
    ensures forall k | k in r :: r[k] == if k in ks && k !in x then y[k] else d[k]
  {
    r := d;
    if ks != [] {
      var k, rest := ks[0], ks[1..];
      assert ks == [k] + rest;
      if k in x {
        assert AddMembers(x, y, ks) == AddMembers(x, y, rest);
        r := AddMembersApply(x, y, rest, d);
      } else {
        assert Front([k]) == [] && Last([k]) == k;
        assert AddMembers(x, y, ks) == [Add([k], y[k])] + AddMembers(x, y, rest);
        assert ApplyOp(Obj(d), Add([k], y[k])) == Ok(Obj(d[k := y[k]]));
        r := AddMembersApply(x, y, rest, d[k := y[k]]);
      }
    }
  }

  lemma {:induction false} MemberPassesApply(source: Json, target: Json, kx: seq<string>, ky: seq<string>)
    returns (kept: map<string, Json>, all: map<string, Json>)
    requires source.Obj? && target.Obj? && Distinct(kx)
    requires (forall k :: k in kx <==> k in source.o) && (forall k :: k in ky <==> k in target.o)
    ensures ApplyOps(source, DiffMembers(source, target, kx) + AddMembers(source.o, target.o, ky)) ==
      if MembersFit(source, target, kx) then Ok(Obj(all)) else Err(StdOutOfRange)
    ensures MembersFit(source, target, kx) ==>
      && MembersDone(source.o, source, target, kx, kept)
      && MembersAdded(source, target, kept, all)
    decreases source, 1
  {
    kept := MembersApply(source, target, kx, source.o);
    ApplyOpsAppend(source, DiffMembers(source, target, kx), AddMembers(source.o, target.o, ky));
    all := AddMembersApply(source.o, target.o, ky, kept);
  }

  /** Both passes in key order. */
  lemma {:induction false} KeyPassesApply(source: Json, target: Json)
    returns (kept: map<string, Json>, all: map<string, Json>)
    requires source.Obj? && target.Obj?
    ensures var kx := SortedKeys(source.o.Keys);
      && ApplyOps(source, ObjectOps(source, target)) ==
           (if MembersFit(source, target, kx) then Ok(Obj(all)) else Err(StdOutOfRange))
      && (MembersFit(source, target, kx) ==>
            && MembersDone(source.o, source, target, kx, kept)
            && MembersAdded(source, target, kept, all))
    decreases source, 2
  {
    SortedKeysDistinct(source.o.Keys);
    kept, all := MemberPassesApply(source, target, SortedKeys(source.o.Keys), SortedKeys(target.o.Keys));
  }

  lemma {:induction false} ObjectApply(source: Json, target: Json)
    requires source.Obj? && target.Obj? && !JsonEq(source, target)
    ensures ApplyOps(source, DiffOps(source, target)) ==
      if IndicesFit(source, target) then Ok(Patched(source, target)) else Err(StdOutOfRange)
    decreases source, 3
  {
    AllMembersFit(source, target);
    var kept, all := KeyPassesApply(source, target);
    if MembersFit(source, target, SortedKeys(source.o.Keys)) { PatchedObject(source, target, kept, all); }
  }

  lemma AllMembersFit(source: Json, target: Json)
    requires source.Obj? && target.Obj? && !JsonEq(source, target)
    ensures MembersFit(source, target, SortedKeys(source.o.Keys)) == IndicesFit(source, target)
  {}

  lemma PatchedObject(source: Json, target: Json, kept: map<string, Json>, all: map<string, Json>)
    requires source.Obj? && target.Obj? && !JsonEq(source, target)
    requires MembersDone(source.o, source, target, SortedKeys(source.o.Keys), kept)
    requires MembersAdded(source, target, kept, all)
    ensures Obj(all) == Patched(source, target)
  {
    var p := Patched(source, target).o;
    forall k ensures k in all <==> k in p {}
    assert all == p;
  }

  lemma SortedKeysDistinct(s: set<string>)
    ensures Distinct(SortedKeys(s))
  {
    var ks := SortedKeys(s);
    forall i, j | 0 <= i < j < |ks| ensures ks[i] != ks[j] { StringLessTotal(ks[i], ks[j]); }
  }

  // ---------- the round trip ----------

  /** Applying the operations of diff in turn, at any nesting: the exact result, or the exact exception. */
  lemma {:induction false} DiffOpsApply(source: Json, target: Json)
    ensures ApplyOps(source, DiffOps(source, target)) ==
      if IndicesFit(source, target) then Ok(Patched(source, target)) else Err(StdOutOfRange)
    decreases source, 4
  {
    if !JsonEq(source, target) {
      if source.Arr? && target.Arr? { ArrayApply(source, target); }
      else if source.Obj? && target.Obj? { ObjectApply(source, target); }
    }
  }

  lemma {:induction false} EqImpliesSelfEq(a: Json, b: Json)
    requires JsonEq(a, b)
    ensures JsonEq(b, b)
  {
    match (a, b)
    case (Arr(x), Arr(y)) => forall i | 0 <= i < |y| ensures JsonEq(y[i], y[i]) { EqImpliesSelfEq(x[i], y[i]); }
    case (Obj(x), Obj(y)) => forall k | k in y ensures JsonEq(y[k], y[k]) { EqImpliesSelfEq(x[k], y[k]); }
    case _ =>
  }

  /** The patched source equals the target exactly when the target equals itself. */
  lemma {:induction false} PatchedEqTarget(source: Json, target: Json)
    ensures JsonEq(Patched(source, target), target) <==> JsonEq(target, target)
  {
    if JsonEq(source, target) {
      EqImpliesSelfEq(source, target);
    } else {
      match (source, target)
      case (Arr(x), Arr(y)) =>
        forall i | 0 <= i < |y| ensures JsonEq(Patched(source, target).a[i], y[i]) <==> JsonEq(y[i], y[i]) {
          if i < |x| { PatchedEqTarget(x[i], y[i]); }
        }
      case (Obj(x), Obj(y)) =>
        forall k | k in y ensures JsonEq(Patched(source, target).o[k], y[k]) <==> JsonEq(y[k], y[k]) {
          if k in x { PatchedEqTarget(x[k], y[k]); }
        }
      case _ =>
    }
  }

  /** diff as a document, which is what the method Diff returns for the empty path. */
  function DiffDocument(source: Json, target: Json): Json {
    Arr(EncodeAll("", DiffOps(source, target)))
  }

  /**
   * source.patch(diff(source, target)) == target holds if and only if the target has no NaN and no discarded part,
   * and diff names no array index above INT_MAX; with such an index, patch throws what std::stoi throws.
   */
  lemma DiffPatchRoundTrip(source: Json, target: Json)
    ensures var r := PatchSpec(source, DiffDocument(source, target));
      && (r.Ok? && JsonEq(r.value, target) <==> IndicesFit(source, target) && Proper(target))
      && (IndicesFit(source, target) ==> r == Ok(Patched(source, target)))
      && (!IndicesFit(source, target) ==> r == Err(StdOutOfRange))
  {
    PatchEncoded(source, DiffOps(source, target));
    DiffOpsApply(source, target);
    PatchedEqTarget(source, target);
    EqReflexiveIffProper(target);
  }

  /** The code of the invariant in the documentation of diff. */
  method DiffThenPatch(source: Json, target: Json) returns (holds: bool)
    ensures holds <==> IndicesFit(source, target) && Proper(target)
  {
    var jsonPatch := Diff(source, target, "");
    var r := Patch(source, Arr(jsonPatch));
    holds := r.Ok? && JsonEq(r.value, target);
    DiffPatchRoundTrip(source, target);
  }

  /** A caller's way to be sure of the indices: no array of source or target has more than 2^31 elements. */
  predicate ArraysShort(j: Json) {
    match j
    case Arr(a) => |a| <= INT_MAX + 1 && forall i | 0 <= i < |a| :: ArraysShort(a[i])
    case Obj(o) => forall k | k in o :: ArraysShort(o[k])
    case _ => true
  }

  lemma {:induction false} ShortArraysFit(source: Json, target: Json)
    requires ArraysShort(source) && ArraysShort(target)
    ensures IndicesFit(source, target)
  {
    match (source, target)
    case (Arr(x), Arr(y)) =>
      forall i | 0 <= i < Common(x, y) ensures IndicesFit(x[i], y[i]) { ShortArraysFit(x[i], y[i]); }
    case (Obj(x), Obj(y)) =>
      forall k | k in x && k in y ensures IndicesFit(x[k], y[k]) { ShortArraysFit(x[k], y[k]); }
    case _ =>
  }

  /** The documented invariant fails on a NaN: diff(NaN, NaN) replaces it by a NaN, which equals nothing. */
  lemma NaNBreaksRoundTrip()
    ensures var nan := Float(NaN);
      var r := PatchSpec(nan, DiffDocument(nan, nan));
      r == Ok(nan) && !JsonEq(r.value, nan)
  {
    DiffPatchRoundTrip(Float(NaN), Float(NaN));
  }

  /** It fails on arrays of more than 2^31 elements: appending one more throws. */
  lemma HugeArrayBreaksRoundTrip()
    ensures var source, target := Arr(seq(INT_MAX + 1, _ => Null)), Arr(seq(INT_MAX + 2, _ => Null));
      PatchSpec(source, DiffDocument(source, target)) == Err(StdOutOfRange)
  {
    DiffPatchRoundTrip(Arr(seq(INT_MAX + 1, _ => Null)), Arr(seq(INT_MAX + 2, _ => Null)));
  }
}
