/** Which operations a diff holds: each of them exactly once, and told from the two values alone. */
module DiffContents {
  import opened Results
  import opened Json
  import opened JsonPointer
  import opened JsonPatch
  import opened PatchLifting
  import opened PatchRfc
  import opened JsonDiff

  // ---------- what a diff has to hold ----------

  /** Two arrays or two objects. */
  predicate SameContainers(x: Json, y: Json) {
    (x.Arr? && y.Arr?) || (x.Obj? && y.Obj?)
  }

  /** Above location p, the two values have the same kinds of containers. */
  ghost predicate SameShapeAbove(source: Json, target: Json, p: Path) {
    forall n | 0 <= n < |p| ::
      var x, y := RfcGet(source, p[..n]), RfcGet(target, p[..n]);
      x.Some? && y.Some? && SameContainers(x.value, y.value)
  }

  /**
   * A replace where both values have something and the two differ, but are not two arrays or two objects; a remove
   * of what only the source has; an add, with the target's value, of what only the target has.
   */
  ghost predicate CalledFor(source: Json, target: Json, op: Op) {
    && SameShapeAbove(source, target, op.path)
    && var x, y := RfcGet(source, op.path), RfcGet(target, op.path);
    match op
    case Replace(_, v) => x.Some? && y == Some(v) && !JsonEq(x.value, v) && !SameContainers(x.value, v)
    case Remove(_) => x.Some? && y.None?
    case Add(_, v) => x.None? && y == Some(v)
    case _ => false
  }

  // ---------- one step down ----------

  /** The operation as seen from the member or element with the given token. */
  function Below(token: string, op: Op): Option<Op> {
    if op.path == [] || op.path[0] != token then None else
      match op
      case Add(p, v) => Some(Add(p[1..], v))
      case Remove(p) => Some(Remove(p[1..]))
      case Replace(p, v) => Some(Replace(p[1..], v))
      case Move(from, p) => if from != [] && from[0] == token then Some(Move(from[1..], p[1..])) else None
      case Copy(from, p) => if from != [] && from[0] == token then Some(Copy(from[1..], p[1..])) else None
      case Test(p, v) => Some(Test(p[1..], v))
  }

  lemma BelowIsUnlifted(token: string, op: Op, inner: Op)
    ensures Below(token, op) == Some(inner) <==> Lift([token], inner) == op
  {
    Unprefixed(token, op.path, inner.path);
    if (op.Move? || op.Copy?) && (inner.Move? || inner.Copy?) { Unprefixed(token, op.from, inner.from); }
  }

  lemma Unprefixed(token: string, p: Path, q: Path)
    ensures p != [] && p[0] == token && p[1..] == q <==> [token] + q == p
  {
    if p != [] { assert p == [p[0]] + p[1..]; }
    assert ([token] + q)[1..] == q;
  }

  lemma InLifted(token: string, ops: seq<Op>, op: Op)
    ensures op in LiftAll([token], ops) <==> Below(token, op).Some? && Below(token, op).value in ops
  {
    var lifted := LiftAll([token], ops);
    if op in lifted {
      var i :| 0 <= i < |lifted| && lifted[i] == op;
      BelowIsUnlifted(token, op, ops[i]);
    }
    if Below(token, op).Some? && Below(token, op).value in ops {
      var inner := Below(token, op).value;
      var i :| 0 <= i < |ops| && ops[i] == inner;
      BelowIsUnlifted(token, op, inner);
      assert lifted[i] == op;
    }
  }

  lemma IndexOfNumeral(i: nat, size: nat)
    ensures RfcIndex(Numeral(i), size) == if i < size then Some(i) else None
  {
    NumeralValue(i);
    if RfcIndex(Numeral(i), size).Some? { NumeralValue(RfcIndex(Numeral(i), size).value); }
  }

  /** A token names the same element of arrays of different lengths, if it names one at all. */
  lemma IndexOfToken(token: string, m: nat, n: nat)
    ensures RfcIndex(token, n).Some? ==>
      RfcIndex(token, m) == if RfcIndex(token, n).value < m then RfcIndex(token, n) else None
  {
    if RfcIndex(token, n).Some? { IndexOfNumeral(RfcIndex(token, n).value, m); }
  }

  // ---------- membership in the passes ----------

  /** The operation is one of those for the element at which its path begins, at index i or later. */
  ghost predicate ForElement(source: Json, target: Json, i: nat, op: Op)
    requires source.Arr? && target.Arr?
  {
    && op.path != []
    && var j := RfcIndex(op.path[0], Common(source.a, target.a));
    && j.Some? && i <= j.value
    && var inner := Below(op.path[0], op);
    && inner.Some? && inner.value in DiffOps(source.a[j.value], target.a[j.value])
  }

  lemma ForElementStep(source: Json, target: Json, i: nat, op: Op)
    requires source.Arr? && target.Arr? && i < Common(source.a, target.a)
    ensures ForElement(source, target, i, op) <==>
      ForElement(source, target, i + 1, op) || op in LiftAll([Numeral(i)], DiffOps(source.a[i], target.a[i]))
  {
    InLifted(Numeral(i), DiffOps(source.a[i], target.a[i]), op);
    IndexOfNumeral(i, Common(source.a, target.a));
  }

  lemma {:induction false} InElements(source: Json, target: Json, i: nat, op: Op)
    requires source.Arr? && target.Arr? && i <= Common(source.a, target.a)
    ensures op in DiffElements(source, target, i) <==> ForElement(source, target, i, op)
    decreases |source.a| - i
  {
    if i < Common(source.a, target.a) {
      InElements(source, target, i + 1, op);
      ForElementStep(source, target, i, op);
    }
  }

  lemma {:induction false} InRemoves(m: nat, n: nat, op: Op)
    ensures op in Removes(m, n) <==>
      op.Remove? && |op.path| == 1 && RfcIndex(op.path[0], n).Some? && m <= RfcIndex(op.path[0], n).value
    decreases n
  {
    if m < n {
      InRemoves(m, n - 1, op);
      IndexOfNumeral(n - 1, n);
      if |op.path| == 1 {
        assert op.path == [op.path[0]];
        IndexOfToken(op.path[0], n - 1, n);
        IndexOfToken(op.path[0], n, n - 1);
      }
    }
  }

  /** An add of the element that the operation's path names, at index i or later. */
  ghost predicate ForAddition(y: seq<Json>, i: nat, op: Op) {
    && op.Add? && |op.path| == 1
    && var j := RfcIndex(op.path[0], |y|);
    j.Some? && i <= j.value && op.value == y[j.value]
  }

  lemma ForAdditionStep(y: seq<Json>, i: nat, op: Op)
    requires i < |y|
    ensures ForAddition(y, i, op) <==> op == Add([Numeral(i)], y[i]) || ForAddition(y, i + 1, op)
  {
    IndexOfNumeral(i, |y|);
    if |op.path| == 1 { assert op.path == [op.path[0]]; }
  }

  lemma {:induction false} InAppends(y: seq<Json>, i: nat, op: Op)
    requires i <= |y|
    ensures op in Appends(y, i) <==> ForAddition(y, i, op)
    decreases |y| - i
  {
    if i < |y| {
      InAppends(y, i + 1, op);
      ForAdditionStep(y, i, op);
    }
  }

  lemma {:induction false} InMembers(source: Json, target: Json, ks: seq<string>, op: Op)
    requires source.Obj? && target.Obj? && forall k | k in ks :: k in source.o
    ensures op in DiffMembers(source, target, ks) <==>
      && op.path != [] && op.path[0] in ks
      && var k := op.path[0];
      if k in target.o then Below(k, op).Some? && Below(k, op).value in DiffOps(source.o[k], target.o[k])
      else op == Remove([k])
  {
    if ks != [] {
      InMembers(source, target, ks[1..], op);
      if ks[0] in target.o { InLifted(ks[0], DiffOps(source.o[ks[0]], target.o[ks[0]]), op); }
    }
  }

  lemma {:induction false} InAddMembers(x: map<string, Json>, y: map<string, Json>, ks: seq<string>, op: Op)
    requires forall k | k in ks :: k in y
    ensures op in AddMembers(x, y, ks) <==>
      op.path != [] && op.path[0] in ks && op.path[0] !in x && op == Add([op.path[0]], y[op.path[0]])
  {
    if ks != [] { InAddMembers(x, y, ks[1..], op); }
  }

  // ---------- membership in a diff ----------

  ghost function Child(j: Json, token: string): Option<Json> {
    RfcGet(j, [token])
  }

  lemma ChildIs(j: Json, token: string)
    ensures Child(j, token) ==
      match j
      case Obj(o) => if token in o then Some(o[token]) else None
      case Arr(a) => if RfcIndex(token, |a|).Some? then Some(a[RfcIndex(token, |a|).value]) else None
      case _ => None
  {
    assert [token][1..] == [];
    match j
    case Obj(o) => if token in o { assert RfcGet(o[token], [token][1..]) == Some(o[token]); }
    case Arr(a) =>
      var i := RfcIndex(token, |a|);
      if i.Some? { assert RfcGet(a[i.value], [token][1..]) == Some(a[i.value]); }
    case _ =>
  }

  lemma GetBelow(j: Json, token: string, q: Path)
    ensures RfcGet(j, [token] + q) == if Child(j, token).Some? then RfcGet(Child(j, token).value, q) else None
  {
    ChildIs(j, token);
    assert ([token] + q)[1..] == q;
  }

  lemma ShapeBelow(source: Json, target: Json, token: string, q: Path)
    ensures SameShapeAbove(source, target, [token] + q) <==>
      && SameContainers(source, target)
      && (q == [] ||
          (Child(source, token).Some? && Child(target, token).Some?
           && SameShapeAbove(Child(source, token).value, Child(target, token).value, q)))
  {
    var p := [token] + q;
    assert p[..0] == [];
    forall n | 0 <= n < |q| ensures p[..n + 1] == [token] + q[..n] {
      GetBelow(source, token, q[..n]);
      GetBelow(target, token, q[..n]);
    }
    if SameShapeAbove(source, target, p) {
      assert RfcGet(source, p[..0]).Some?;
      if q != [] {
        assert RfcGet(source, p[..1]).Some? && p[..1] == [token];
        forall n | 0 <= n < |q|
          ensures var x, y := RfcGet(Child(source, token).value, q[..n]), RfcGet(Child(target, token).value, q[..n]);
            x.Some? && y.Some? && SameContainers(x.value, y.value)
        {
          assert RfcGet(source, p[..n + 1]).Some?;
          GetBelow(source, token, q[..n]);
          GetBelow(target, token, q[..n]);
        }
      }
    } else {
      var n :| 0 <= n < |p| && var x, y := RfcGet(source, p[..n]), RfcGet(target, p[..n]);
        !(x.Some? && y.Some? && SameContainers(x.value, y.value));
      if n > 0 {
        GetBelow(source, token, q[..n - 1]);
        GetBelow(target, token, q[..n - 1]);
        assert p[..n] == [token] + q[..n - 1];
      }
    }
  }

  /** What the values call for, one level at a time. */
  lemma CalledForBelow(source: Json, target: Json, op: Op, token: string)
    requires op.path != [] && op.path[0] == token
    ensures CalledFor(source, target, op) <==>
      && SameContainers(source, target)
      && var x, y := Child(source, token), Child(target, token);
      if x.Some? && y.Some? then
        Below(token, op).Some? && CalledFor(x.value, y.value, Below(token, op).value)
      else if x.Some? then op == Remove([token])
      else y.Some? && op == Add([token], y.value)
  {
    assert op.path == [token] + op.path[1..];
    if Child(source, token).Some? && Child(target, token).Some? {
      CalledForInBoth(source, target, op, token);
    } else {
      CalledForInOne(source, target, op, token);
    }
  }

  lemma CalledForInBoth(source: Json, target: Json, op: Op, token: string)
    requires op.path != [] && op.path == [token] + op.path[1..]
    requires Child(source, token).Some? && Child(target, token).Some?
    ensures CalledFor(source, target, op) <==>
      && SameContainers(source, target) && Below(token, op).Some?
      && CalledFor(Child(source, token).value, Child(target, token).value, Below(token, op).value)
  {
    ShapeBelow(source, target, token, op.path[1..]);
    GetBelow(source, token, op.path[1..]);
    GetBelow(target, token, op.path[1..]);
    assert !(op.Move? || op.Copy? || op.Test?) ==> Below(token, op).Some?;
  }

  lemma CalledForInOne(source: Json, target: Json, op: Op, token: string)
    requires op.path != [] && op.path == [token] + op.path[1..]
    requires !(Child(source, token).Some? && Child(target, token).Some?)
    ensures CalledFor(source, target, op) <==>
      && SameContainers(source, target)
      && if Child(source, token).Some? then op == Remove([token])
         else Child(target, token).Some? && op == Add([token], Child(target, token).value)
  {
    var q := op.path[1..];
    ShapeBelow(source, target, token, q);
    GetBelow(source, token, q);
    GetBelow(target, token, q);
    if q == [] { assert op.path == [token]; }
  }

  lemma CalledForHere(source: Json, target: Json, op: Op)
    requires op.path == []
    ensures CalledFor(source, target, op) <==>
      op == Replace([], target) && !JsonEq(source, target) && !SameContainers(source, target)
  {}

  lemma ChildrenOfEqual(x: Json, y: Json, token: string)
    requires JsonEq(x, y) && SameContainers(x, y)
    ensures Child(x, token).Some? <==> Child(y, token).Some?
    ensures Child(x, token).Some? ==> JsonEq(Child(x, token).value, Child(y, token).value)
  {
    ChildIs(x, token);
    ChildIs(y, token);
  }

  /** Equal values call for nothing, at any depth. */
  lemma {:induction false} EqualCallForNothing(source: Json, target: Json, op: Op)
    requires JsonEq(source, target)
    ensures !CalledFor(source, target, op)
    decreases |op.path|
  {
    if op.path == [] {
      CalledForHere(source, target, op);
    } else {
      var token := op.path[0];
      CalledForBelow(source, target, op, token);
      if SameContainers(source, target) {
        ChildrenOfEqual(source, target, token);
        if Child(source, token).Some? && Below(token, op).Some? {
          EqualCallForNothing(Child(source, token).value, Child(target, token).value, Below(token, op).value);
        }
      }
    }
  }

  /** The members or elements that both containers have, those of the source alone, and those of the target alone. */
  ghost predicate ListedBelow(source: Json, target: Json, op: Op) {
    && op.path != []
    && var token := op.path[0];
    && var x, y := Child(source, token), Child(target, token);
    if x.Some? && y.Some? then
      Below(token, op).Some? && Below(token, op).value in DiffOps(x.value, y.value)
    else if x.Some? then op == Remove([token])
    else y.Some? && op == Add([token], y.value)
  }

  lemma InArrayOps(source: Json, target: Json, op: Op)
    requires source.Arr? && target.Arr?
    ensures op in ArrayOps(source, target) <==> ListedBelow(source, target, op)
  {
    var m := Common(source.a, target.a);
    InElements(source, target, 0, op);
    InRemoves(m, |source.a|, op);
    InAppends(target.a, m, op);
    if op.path != [] {
      var token := op.path[0];
      ChildIs(source, token);
      ChildIs(target, token);
      IndexOfToken(token, m, |source.a|);
      IndexOfToken(token, m, |target.a|);
      IndexOfToken(token, |target.a|, |source.a|);
      IndexOfToken(token, |source.a|, |target.a|);
      if |op.path| == 1 { assert op.path == [token]; }
    }
  }

  lemma InObjectOps(source: Json, target: Json, op: Op)
    requires source.Obj? && target.Obj?
    ensures op in ObjectOps(source, target) <==> ListedBelow(source, target, op)
  {
    InMembers(source, target, SortedKeys(source.o.Keys), op);
    InAddMembers(source.o, target.o, SortedKeys(target.o.Keys), op);
    if op.path != [] { MemberListed(source, target, op, op.path[0]); }
  }

  lemma MemberListed(source: Json, target: Json, op: Op, k: string)
    requires source.Obj? && target.Obj? && op.path != [] && op.path[0] == k
    ensures ListedBelow(source, target, op) <==>
      if k in source.o && k in target.o then
        Below(k, op).Some? && Below(k, op).value in DiffOps(source.o[k], target.o[k])
      else if k in source.o then op == Remove([k])
      else k in target.o && op == Add([k], target.o[k])
  {
    ChildIs(source, k);
    ChildIs(target, k);
  }

  /** A diff holds exactly the operations that the two values call for. */
  lemma {:induction false} DiffHoldsIff(source: Json, target: Json, op: Op)
    ensures op in DiffOps(source, target) <==> CalledFor(source, target, op)
    decreases |op.path|
  {
    if JsonEq(source, target) {
      EqualCallForNothing(source, target, op);
    } else if SameContainers(source, target) {
      if source.Arr? { InArrayOps(source, target, op); } else { InObjectOps(source, target, op); }
      if op.path == [] {
        CalledForHere(source, target, op);
      } else {
        CalledForBelowIff(source, target, op);
      }
    } else {
      if op.path == [] {
        CalledForHere(source, target, op);
      } else {
        CalledForBelow(source, target, op, op.path[0]);
      }
    }
  }

  lemma {:induction false} CalledForBelowIff(source: Json, target: Json, op: Op)
    requires SameContainers(source, target) && op.path != []
    ensures CalledFor(source, target, op) <==> ListedBelow(source, target, op)
    decreases |op.path|, 0
  {
    var token := op.path[0];
    CalledForBelow(source, target, op, token);
    var x, y := Child(source, token), Child(target, token);
    if x.Some? && y.Some? && Below(token, op).Some? { DiffHoldsIff(x.value, y.value, Below(token, op).value); }
  }

  // ---------- each operation once ----------

  predicate DistinctPaths(ops: seq<Op>) {
    forall i, j | 0 <= i < j < |ops| :: ops[i].path != ops[j].path
  }

  lemma DistinctAppend(a: seq<Op>, b: seq<Op>)
    requires DistinctPaths(a) && DistinctPaths(b)
    requires forall x, y | x in a && y in b :: x.path != y.path
    ensures DistinctPaths(a + b)
  {}

  lemma DistinctLifted(token: string, ops: seq<Op>)
    requires DistinctPaths(ops)
    ensures DistinctPaths(LiftAll([token], ops))
  {
    var lifted := LiftAll([token], ops);
    forall i, j | 0 <= i < j < |lifted| ensures lifted[i].path != lifted[j].path {
      Unprefixed(token, lifted[i].path, ops[i].path);
      Unprefixed(token, lifted[j].path, ops[j].path);
    }
  }

  lemma {:induction false} DistinctElements(source: Json, target: Json, i: nat)
    requires source.Arr? && target.Arr? && i <= Common(source.a, target.a)
    ensures DistinctPaths(DiffElements(source, target, i))
    decreases source, 0, |source.a| - i
  {
    var m := Common(source.a, target.a);
    if i < m {
      var here := LiftAll([Numeral(i)], DiffOps(source.a[i], target.a[i]));
      DiffPathsDistinct(source.a[i], target.a[i]);
      DistinctLifted(Numeral(i), DiffOps(source.a[i], target.a[i]));
      DistinctElements(source, target, i + 1);
      IndexOfNumeral(i, m);
      forall x, y | x in here && y in DiffElements(source, target, i + 1) ensures x.path != y.path {
        InLifted(Numeral(i), DiffOps(source.a[i], target.a[i]), x);
        InElements(source, target, i + 1, y);
      }
      DistinctAppend(here, DiffElements(source, target, i + 1));
    }
  }

  lemma {:induction false} DistinctRemoves(m: nat, n: nat)
    ensures DistinctPaths(Removes(m, n))
    decreases n
  {
    if m < n {
      DistinctRemoves(m, n - 1);
      IndexOfNumeral(n - 1, n - 1);
      forall y | y in Removes(m, n - 1) ensures y.path != [Numeral(n - 1)] { InRemoves(m, n - 1, y); }
      DistinctAppend([Remove([Numeral(n - 1)])], Removes(m, n - 1));
    }
  }

  lemma {:induction false} DistinctAppends(y: seq<Json>, i: nat)
    requires i <= |y|
    ensures DistinctPaths(Appends(y, i))
    decreases |y| - i
  {
    if i < |y| {
      DistinctAppends(y, i + 1);
      IndexOfNumeral(i, |y|);
      forall z | z in Appends(y, i + 1) ensures z.path != [Numeral(i)] { InAppends(y, i + 1, z); }
      DistinctAppend([Add([Numeral(i)], y[i])], Appends(y, i + 1));
    }
  }

  lemma {:induction false} DistinctArrayOps(source: Json, target: Json)
    requires source.Arr? && target.Arr?
    ensures DistinctPaths(ArrayOps(source, target))
    decreases source, 1
  {
    var m := Common(source.a, target.a);
    var common, removed, added := DiffElements(source, target, 0), Removes(m, |source.a|), Appends(target.a, m);
    DistinctElements(source, target, 0);
    DistinctRemoves(m, |source.a|);
    DistinctAppends(target.a, m);
    assert removed == [] || added == [];
    DistinctAppend(removed, added);
    forall x: Op, y: Op | x in common && y in removed + added ensures x.path != y.path {
      TailIsElsewhere(source, target, x, y);
    }
    DistinctAppend(common, removed + added);
  }

  lemma TailIsElsewhere(source: Json, target: Json, x: Op, y: Op)
    requires source.Arr? && target.Arr? && x in DiffElements(source, target, 0)
    requires var m := Common(source.a, target.a); y in Removes(m, |source.a|) + Appends(target.a, m)
    ensures x.path != y.path
  {
    var m := Common(source.a, target.a);
    InElements(source, target, 0, x);
    InRemoves(m, |source.a|, y);
    InAppends(target.a, m, y);
    IndexOfToken(x.path[0], |source.a|, m);
    IndexOfToken(x.path[0], |target.a|, m);
  }

  predicate NoRepeats(ks: seq<string>) {
    forall i, j | 0 <= i < j < |ks| :: ks[i] != ks[j]
  }

  lemma {:induction false} DistinctMembers(source: Json, target: Json, ks: seq<string>)
    requires source.Obj? && target.Obj? && forall k | k in ks :: k in source.o
    requires NoRepeats(ks)
    ensures DistinctPaths(DiffMembers(source, target, ks))
    decreases source, 0, |ks|
  {
    if ks != [] {
      var k, rest := ks[0], DiffMembers(source, target, ks[1..]);
      var here := if k in target.o then LiftAll([k], DiffOps(source.o[k], target.o[k])) else [Remove([k])];
      if k in target.o {
        DiffPathsDistinct(source.o[k], target.o[k]);
        DistinctLifted(k, DiffOps(source.o[k], target.o[k]));
      }
      DistinctMembers(source, target, ks[1..]);
      forall x, y | x in here && y in rest ensures x.path != y.path {
        if k in target.o { InLifted(k, DiffOps(source.o[k], target.o[k]), x); }
        InMembers(source, target, ks[1..], y);
      }
      DistinctAppend(here, rest);
    }
  }

  lemma {:induction false} DistinctAddMembers(x: map<string, Json>, y: map<string, Json>, ks: seq<string>)
    requires forall k | k in ks :: k in y
    requires NoRepeats(ks)
    ensures DistinctPaths(AddMembers(x, y, ks))
  {
    if ks != [] {
      var rest := AddMembers(x, y, ks[1..]);
      DistinctAddMembers(x, y, ks[1..]);
      if ks[0] !in x {
        forall z | z in rest ensures z.path != [ks[0]] { InAddMembers(x, y, ks[1..], z); }
        DistinctAppend([Add([ks[0]], y[ks[0]])], rest);
      }
    }
  }

  lemma KeysDistinct(s: set<string>)
    ensures NoRepeats(SortedKeys(s))
  {
    var ks := SortedKeys(s);
    forall i, j | 0 <= i < j < |ks| ensures ks[i] != ks[j] { StringLessTotal(ks[i], ks[j]); }
  }

  lemma {:induction false} DistinctObjectOps(source: Json, target: Json)
    requires source.Obj? && target.Obj?
    ensures DistinctPaths(ObjectOps(source, target))
    decreases source, 1
  {
    var kx, ky := SortedKeys(source.o.Keys), SortedKeys(target.o.Keys);
    KeysDistinct(source.o.Keys);
    KeysDistinct(target.o.Keys);
    DistinctMembers(source, target, kx);
    DistinctAddMembers(source.o, target.o, ky);
    AdditionsAreElsewhere(source, target, kx, ky);
    DistinctAppend(DiffMembers(source, target, kx), AddMembers(source.o, target.o, ky));
  }

  lemma AdditionsAreElsewhere(source: Json, target: Json, kx: seq<string>, ky: seq<string>)
    requires source.Obj? && target.Obj?
    requires (forall k | k in kx :: k in source.o) && forall k | k in ky :: k in target.o
    ensures forall x, y | x in DiffMembers(source, target, kx) && y in AddMembers(source.o, target.o, ky) ::
      x.path != y.path
  {
    forall x, y | x in DiffMembers(source, target, kx) && y in AddMembers(source.o, target.o, ky)
      ensures x.path != y.path
    {
      InMembers(source, target, kx, x);
      InAddMembers(source.o, target.o, ky, y);
    }
  }

  /** No two operations of a diff have the same path. */
  lemma {:induction false} DiffPathsDistinct(source: Json, target: Json)
    ensures DistinctPaths(DiffOps(source, target))
    decreases source, 2
  {
    if !JsonEq(source, target) {
      if source.Arr? && target.Arr? { DistinctArrayOps(source, target); }
      else if source.Obj? && target.Obj? { DistinctObjectOps(source, target); }
    }
  }

  // ---------- the patch document ----------

  predicate SamePath(x: Json, y: Json) {
    x.Obj? && y.Obj? && "path" in x.o && "path" in y.o && x.o["path"] == y.o["path"]
  }

  /**
   * What is in the document that diff returns, whatever the two values: one element for each operation that they call
   * for, and nothing else.
   */
  lemma DiffDocument(source: Json, target: Json, element: Json)
    ensures var document: seq<Json> := EncodeAll("", DiffOps(source, target));
      && (element in document <==> exists op :: CalledFor(source, target, op) && element == Encode("", op))
      && forall i, j | 0 <= i < j < |document| :: !SamePath(document[i], document[j])
  {
    var ops := DiffOps(source, target);
    var document: seq<Json> := EncodeAll("", ops);
    if element in document {
      var i: nat :| i < |document| && document[i] == element;
      DiffHoldsIff(source, target, ops[i]);
    }
    if op :| CalledFor(source, target, op) && element == Encode("", op) {
      DiffHoldsIff(source, target, op);
      var i :| 0 <= i < |ops| && ops[i] == op;
      assert document[i] == element;
    }
    DiffPathsDistinct(source, target);
    forall i, j | 0 <= i < j < |document| ensures !SamePath(document[i], document[j]) {
      ParsePath(ops[i].path);
      ParsePath(ops[j].path);
    }
  }

  /** A difference in kind higher up hides what is below: there is one replace, and the element is not removed. */
  lemma KindsDifferAbove(x: Json)
    ensures var source, target := Obj(map["0" := Obj(map["a" := x])]), Arr([Obj(map[])]);
      && RfcGet(source, ["0"]) == Some(Obj(map["a" := x])) && RfcGet(target, ["0"]) == Some(Obj(map[]))
      && Remove(["0", "a"]) !in DiffOps(source, target)
      && DiffOps(source, target) == [Replace([], target)]
  {
    var source, target := Obj(map["0" := Obj(map["a" := x])]), Arr([Obj(map[])]);
    assert Numeral(0) == "0";
    IndexOfNumeral(0, 1);
    ChildIs(source, "0");
    ChildIs(target, "0");
  }
}
