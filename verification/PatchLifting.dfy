/** Applying a patch to a subtree, and applying it with a path prefix to the whole document. */
module PatchLifting {
  import opened Results
  import opened Json
  import opened JsonPointer
  import opened JsonPatch

  /** The document with the value at an existing location replaced. */
  function Put(doc: Json, p: Path, v: Json): (r: Json)
    requires At(doc, p).Ok?
    ensures EditAt(doc, p, SetTo(v)) == Ok(r)
    ensures At(r, p) == Ok(v)
  {
    if p == [] then v else
      match doc
      case Obj(o) => Obj(o[p[0] := Put(o[p[0]], p[1..], v)])
      case Arr(a) =>
        var i := CheckedIndex(p[0], |a|).value;
        Arr(a[i := Put(a[i], p[1..], v)])
  }

  ghost function Placed(doc: Json, p: Path, r: Result<Json>): Result<Json>
    requires At(doc, p).Ok?
  {
    if r.Ok? then Ok(Put(doc, p, r.value)) else r
  }

  lemma {:induction false} PutPut(doc: Json, p: Path, v: Json, w: Json)
    requires At(doc, p).Ok?
    ensures Put(Put(doc, p, v), p, w) == Put(doc, p, w)
    ensures Put(doc, p, At(doc, p).value) == doc
  {
    if p != [] {
      match doc
      case Obj(o) =>
        PutPut(o[p[0]], p[1..], v, w);
        assert o[p[0] := o[p[0]]] == o;
      case Arr(a) =>
        var i := CheckedIndex(p[0], |a|).value;
        PutPut(a[i], p[1..], v, w);
        assert a[i := a[i]] == a;
    }
  }

  /** The two paths exist up to a container in which they name different members or elements. */
  predicate Diverge(doc: Json, p: Path, q: Path) {
    p != [] && q != [] &&
    match doc
    case Obj(o) => p[0] != q[0] || (p[0] in o && Diverge(o[p[0]], p[1..], q[1..]))
    case Arr(a) =>
      var i, j := CheckedIndex(p[0], |a|), CheckedIndex(q[0], |a|);
      i.Ok? && (i != j || Diverge(a[i.value], p[1..], q[1..]))
    case _ => false
  }

  lemma {:induction false} PutFrame(doc: Json, p: Path, v: Json, q: Path)
    requires At(doc, p).Ok? && Diverge(doc, p, q)
    ensures At(Put(doc, p, v), q) == At(doc, q)
  {
    match doc
    case Obj(o) => if p[0] == q[0] { PutFrame(o[p[0]], p[1..], v, q[1..]); }
    case Arr(a) =>
      var i, j := CheckedIndex(p[0], |a|), CheckedIndex(q[0], |a|);
      if i == j { PutFrame(a[i.value], p[1..], v, q[1..]); }
  }

  // ---------- navigation through a prefix ----------

  lemma {:induction false} AtPrefix(doc: Json, p: Path, q: Path)
    requires At(doc, p).Ok?
    ensures At(doc, p + q) == At(At(doc, p).value, q)
  {
    if p == [] {
      assert p + q == q;
    } else {
      assert (p + q)[1..] == p[1..] + q;
      match doc
      case Obj(o) => AtPrefix(o[p[0]], p[1..], q);
      case Arr(a) => AtPrefix(a[CheckedIndex(p[0], |a|).value], p[1..], q);
    }
  }

  lemma {:induction false} EditAtPrefix(doc: Json, p: Path, q: Path, e: Edit)
    requires At(doc, p).Ok?
    ensures EditAt(doc, p + q, e) == Placed(doc, p, EditAt(At(doc, p).value, q, e))
  {
    if p == [] {
      assert p + q == q;
    } else {
      assert (p + q)[1..] == p[1..] + q;
      match doc
      case Obj(o) => EditAtPrefix(o[p[0]], p[1..], q, e);
      case Arr(a) => EditAtPrefix(a[CheckedIndex(p[0], |a|).value], p[1..], q, e);
    }
  }

  /** Along an existing prefix nothing is created. */
  lemma {:induction false} EditCreatingPrefix(doc: Json, p: Path, q: Path, e: Edit)
    requires At(doc, p).Ok?
    ensures EditCreating(doc, p + q, e) == Placed(doc, p, EditCreating(At(doc, p).value, q, e))
  {
    if p == [] {
      assert p + q == q;
    } else {
      assert (p + q)[1..] == p[1..] + q;
      match doc
      case Obj(o) => EditCreatingPrefix(o[p[0]], p[1..], q, e);
      case Arr(a) => EditCreatingPrefix(a[CheckedIndex(p[0], |a|).value], p[1..], q, e);
    }
  }

  /** A first token that overflows std::stoi does so whether or not missing values are created. */
  lemma OverflowBothWays(doc: Json, p: Path, e: Edit)
    requires p != [] && At(doc, p[..1]) == Err(StdOutOfRange)
    ensures EditCreating(doc, p, e) == Err(StdOutOfRange)
    ensures EditAt(doc, p, e) == Err(StdOutOfRange)
    ensures At(doc, p) == Err(StdOutOfRange)
  {}

  // ---------- prefixed operations ----------

  function Lift(p: Path, op: Op): Op {
    match op
    case Add(q, v) => Add(p + q, v)
    case Remove(q) => Remove(p + q)
    case Replace(q, v) => Replace(p + q, v)
    case Move(from, q) => Move(p + from, p + q)
    case Copy(from, q) => Copy(p + from, p + q)
    case Test(q, v) => Test(p + q, v)
  }

  function LiftAll(p: Path, ops: seq<Op>): (lifted: seq<Op>)
    ensures |lifted| == |ops| && forall i | 0 <= i < |ops| :: lifted[i] == Lift(p, ops[i])
  {
    seq(|ops|, i requires 0 <= i < |ops| => Lift(p, ops[i]))
  }

  /** No add or remove replaces or deletes the root of the document it is applied to. */
  predicate KeepsRoot(op: Op) {
    match op
    case Add(q, _) => q != []
    case Remove(q) => q != []
    case Move(from, q) => from != [] && q != []
    case Copy(_, q) => q != []
    case _ => true
  }

  predicate AllKeepRoot(ops: seq<Op>) {
    forall i | 0 <= i < |ops| :: KeepsRoot(ops[i])
  }

  lemma FirstStepExists(doc: Json, p: Path)
    requires p != [] && At(doc, p).Ok?
    ensures At(doc, [p[0]]).Ok?
  {
    assert [p[0]][1..] == [];
  }

  lemma LiftAdd(doc: Json, p: Path, q: Path, v: Json)
    requires p != [] && q != [] && At(doc, p).Ok?
    ensures var r := OperationAdd(At(doc, p).value, q, v);
      r.Ok? || r == Err(StdOutOfRange) ==> OperationAdd(doc, p + q, v) == Placed(doc, p, r)
  {
    var sub := At(doc, p).value;
    assert (p + q)[..1] + (p + q)[1..] == p + q && Front(p + q) == p + Front(q) && Last(p + q) == Last(q);
    FirstStepExists(doc, p);
    assert (p + q)[..1] == [p[0]];
    EditCreatingPrefix(doc, p, Front(q), AddChild(Last(q), v));
    if |q| > 1 && At(sub, q[..1]) == Err(StdOutOfRange) {
      assert Front(q)[..1] == q[..1];
      OverflowBothWays(sub, Front(q), AddChild(Last(q), v));
    }
  }

  lemma LiftRemove(doc: Json, p: Path, q: Path)
    requires q != [] && At(doc, p).Ok?
    ensures OperationRemove(doc, p + q) == Placed(doc, p, OperationRemove(At(doc, p).value, q))
  {
    assert Front(p + q) == p + Front(q) && Last(p + q) == Last(q);
    EditAtPrefix(doc, p, Front(q), RemoveChild(Last(q)));
  }

  lemma LiftOp(doc: Json, p: Path, op: Op)
    requires p != [] && At(doc, p).Ok? && KeepsRoot(op)
    ensures var r := ApplyOp(At(doc, p).value, op);
      r.Ok? || r == Err(StdOutOfRange) ==> ApplyOp(doc, Lift(p, op)) == Placed(doc, p, r)
  {
    var sub := At(doc, p).value;
    match op
    case Add(q, v) => LiftAdd(doc, p, q, v);
    case Remove(q) => LiftRemove(doc, p, q);
    case Replace(q, v) => EditAtPrefix(doc, p, q, SetTo(v));
    case Move(from, q) =>
      AtPrefix(doc, p, from);
      LiftRemove(doc, p, from);
      var v, rest := At(sub, from), OperationRemove(sub, from);
      if v.Ok? && rest.Ok? {
        LiftAdd(Put(doc, p, rest.value), p, q, v.value);
        var r := OperationAdd(rest.value, q, v.value);
        if r.Ok? { PutPut(doc, p, rest.value, r.value); }
      }
    case Copy(from, q) =>
      AtPrefix(doc, p, from);
      if At(sub, from).Ok? { LiftAdd(doc, p, q, At(sub, from).value); }
    case Test(q, v) =>
      AtPrefix(doc, p, q);
      PutPut(doc, p, sub, sub);
  }

  /**
   * Prefix lifting: a patch that succeeds on the subtree at p succeeds with prefix p on the whole document and
   * changes nothing but that subtree; one that overflows an index there does so here.
   */
  lemma {:induction false} LiftOps(doc: Json, p: Path, ops: seq<Op>)
    requires p != [] && At(doc, p).Ok? && AllKeepRoot(ops)
    ensures var r := ApplyOps(At(doc, p).value, ops);
      r.Ok? || r == Err(StdOutOfRange) ==> ApplyOps(doc, LiftAll(p, ops)) == Placed(doc, p, r)
    decreases ops
  {
    var sub := At(doc, p).value;
    if ops == [] {
      PutPut(doc, p, sub, sub);
    } else {
      LiftOp(doc, p, ops[0]);
      assert LiftAll(p, ops)[1..] == LiftAll(p, ops[1..]);
      var step := ApplyOp(sub, ops[0]);
      if step.Ok? {
        var next := Put(doc, p, step.value);
        LiftOps(next, p, ops[1..]);
        var r := ApplyOps(step.value, ops[1..]);
        if r.Ok? { PutPut(doc, p, step.value, r.value); }
      }
    }
  }

  /** The same, said of the locations: the result at p is the patched subtree, and diverging locations keep theirs. */
  lemma LiftedPatchIsLocal(doc: Json, p: Path, ops: seq<Op>, q: Path)
    requires p != [] && At(doc, p).Ok? && AllKeepRoot(ops) && ApplyOps(At(doc, p).value, ops).Ok?
    ensures var r := ApplyOps(doc, LiftAll(p, ops));
      && r.Ok?
      && At(r.value, p) == ApplyOps(At(doc, p).value, ops)
      && (Diverge(doc, p, q) ==> At(r.value, q) == At(doc, q))
  {
    LiftOps(doc, p, ops);
    if Diverge(doc, p, q) { PutFrame(doc, p, ApplyOps(At(doc, p).value, ops).value, q); }
  }

  lemma {:induction false} ApplyOpsAppend(doc: Json, first: seq<Op>, second: seq<Op>)
    ensures ApplyOps(doc, first + second) ==
      if ApplyOps(doc, first).Ok? then ApplyOps(ApplyOps(doc, first).value, second) else ApplyOps(doc, first)
    decreases first
  {
    if first == [] {
      assert first + second == second;
    } else {
      assert (first + second)[1..] == first[1..] + second;
      var step := ApplyOp(doc, first[0]);
      if step.Ok? { ApplyOpsAppend(step.value, first[1..], second); }
    }
  }
}
