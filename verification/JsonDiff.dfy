/** basic_json::diff: the patch document that leads from one value to another. */
module JsonDiff {
  import opened Results
  import opened Json
  import opened JsonPointer
  import opened JsonPatch
  import opened PatchLifting

  // ---------- the operations, with paths relative to the compared values ----------

  function DiffOps(source: Json, target: Json): seq<Op>
    decreases source, 2
  {
    if JsonEq(source, target) then []
    else if source.Arr? && target.Arr? then ArrayOps(source, target)
    else if source.Obj? && target.Obj? then ObjectOps(source, target)
    else [Replace([], target)]
  }

  /** Changes of the common elements, removals of the source's others, additions of the target's others. */
  function ArrayOps(source: Json, target: Json): seq<Op>
    requires source.Arr? && target.Arr?
    decreases source, 1
  {
    var m := Common(source.a, target.a);
    DiffElements(source, target, 0) + (Removes(m, |source.a|) + Appends(target.a, m))
  }

  /** Changes and removals of the source's members, additions of the target's others. */
  function ObjectOps(source: Json, target: Json): seq<Op>
    requires source.Obj? && target.Obj?
    decreases source, 1
  {
    var kx, ky := SortedKeys(source.o.Keys), SortedKeys(target.o.Keys);
    DiffMembers(source, target, kx) + AddMembers(source.o, target.o, ky)
  }

  function Common(x: seq<Json>, y: seq<Json>): nat {
    if |x| < |y| then |x| else |y|
  }

  /** The changes of the elements that both arrays have, from index i on. */
  function DiffElements(source: Json, target: Json, i: nat): seq<Op>
    requires source.Arr? && target.Arr? && i <= Common(source.a, target.a)
    decreases source, 0, |source.a| - i
  {
    if i == Common(source.a, target.a) then []
    else
      LiftAll([Numeral(i)], DiffOps(source.a[i], target.a[i])) + DiffElements(source, target, i + 1)
  }

  /** Removal of the elements m..n, the last one first. */
  function Removes(m: nat, n: nat): seq<Op>
    decreases n
  {
    if n <= m then [] else [Remove([Numeral(n - 1)])] + Removes(m, n - 1)
  }

  function Appends(y: seq<Json>, i: nat): seq<Op>
    decreases |y| - i
  {
    if i >= |y| then [] else [Add([Numeral(i)], y[i])] + Appends(y, i + 1)
  }

  /** The changes and removals of the source's members with the given keys. */
  function DiffMembers(source: Json, target: Json, ks: seq<string>): seq<Op>
    requires source.Obj? && target.Obj? && forall k | k in ks :: k in source.o
    decreases source, 0, |ks|
  {
    if ks == [] then []
    else
      (if ks[0] in target.o then LiftAll([ks[0]], DiffOps(source.o[ks[0]], target.o[ks[0]])) else [Remove([ks[0]])])
      + DiffMembers(source, target, ks[1..])
  }

  function AddMembers(x: map<string, Json>, y: map<string, Json>, ks: seq<string>): seq<Op>
    requires forall k | k in ks :: k in y
  {
    if ks == [] then []
    else (if ks[0] in x then [] else [Add([ks[0]], y[ks[0]])]) + AddMembers(x, y, ks[1..])
  }

  // ---------- their JSON form ----------

  /** One element of a patch document, with the text prefix in front of its paths. */
  function Encode(prefix: string, op: Op): Json {
    match op
    case Add(p, v) => Obj(map["op" := Str("add"), "path" := Str(prefix + ToString(p)), "value" := v])
    case Remove(p) => Obj(map["op" := Str("remove"), "path" := Str(prefix + ToString(p))])
    case Replace(p, v) => Obj(map["op" := Str("replace"), "path" := Str(prefix + ToString(p)), "value" := v])
    case Move(from, p) =>
      Obj(map["op" := Str("move"), "from" := Str(prefix + ToString(from)), "path" := Str(prefix + ToString(p))])
    case Copy(from, p) =>
      Obj(map["op" := Str("copy"), "from" := Str(prefix + ToString(from)), "path" := Str(prefix + ToString(p))])
    case Test(p, v) => Obj(map["op" := Str("test"), "path" := Str(prefix + ToString(p)), "value" := v])
  }

  function EncodeAll(prefix: string, ops: seq<Op>): (r: seq<Json>)
    ensures |r| == |ops| && forall i | 0 <= i < |ops| :: r[i] == Encode(prefix, ops[i])
  {
    seq(|ops|, i requires 0 <= i < |ops| => Encode(prefix, ops[i]))
  }

  lemma EncodeAppend(prefix: string, a: seq<Op>, b: seq<Op>)
    ensures EncodeAll(prefix, a + b) == EncodeAll(prefix, a) + EncodeAll(prefix, b)
  {}

  /** Extending the path argument of diff by an escaped token is lifting by that token. */
  lemma EncodeLifted(prefix: string, token: string, ops: seq<Op>)
    ensures EncodeAll(prefix, LiftAll([token], ops)) == EncodeAll(prefix + "/" + Escape(token), ops)
  {
    forall i | 0 <= i < |ops|
      ensures Encode(prefix, Lift([token], ops[i])) == Encode(prefix + "/" + Escape(token), ops[i])
    {
      EncodeLiftedOp(prefix, token, ops[i]);
    }
  }

  lemma EncodeLiftedOp(prefix: string, token: string, op: Op)
    ensures Encode(prefix, Lift([token], op)) == Encode(prefix + "/" + Escape(token), op)
  {
    PrefixedPath(prefix, token, op.path);
    if op.Move? || op.Copy? { PrefixedPath(prefix, token, op.from); }
  }

  lemma PrefixedPath(prefix: string, token: string, p: Path)
    ensures prefix + ToString([token] + p) == prefix + "/" + Escape(token) + ToString(p)
  {
    assert ([token] + p)[1..] == p;
  }

  /** The text of a path in an encoded operation is parsed back. */
  lemma ParsePath(p: Path)
    ensures Split("" + ToString(p)) == Ok(p)
  {
    PointerRoundTrip(p, "");
    assert "" + ToString(p) == ToString(p);
  }

  /** A patch document says exactly which operations it was made from. */
  lemma ParseEncoded(op: Op)
    ensures ParseOp(Encode("", op)) == Ok(op)
  {
    ParsePath(op.path);
    if op.Move? || op.Copy? {
      ParsePath(op.from);
      ParseEncodedFrom(op);
    }
  }

  lemma ParseEncodedFrom(op: Op)
    requires op.Move? || op.Copy?
    requires Split("" + ToString(op.path)) == Ok(op.path) && Split("" + ToString(op.from)) == Ok(op.from)
    ensures ParseOp(Encode("", op)) == Ok(op)
  {
    var o := Encode("", op).o;
    assert GetString(o, "op") == Ok(if op.Move? then "move" else "copy");
    assert GetString(o, "path") == Ok("" + ToString(op.path)) && GetString(o, "from") == Ok("" + ToString(op.from));
  }

  lemma {:induction false} PatchEncoded(doc: Json, ops: seq<Op>)
    ensures PatchElements(doc, EncodeAll("", ops)) == ApplyOps(doc, ops)
    decreases ops
  {
    if ops != [] {
      ParseEncoded(ops[0]);
      assert EncodeAll("", ops)[1..] == EncodeAll("", ops[1..]);
      var next := ApplyOp(doc, ops[0]);
      if next.Ok? { PatchEncoded(next.value, ops[1..]); }
    }
  }

  // ---------- the algorithm ----------

  method Diff(source: Json, target: Json, path: string) returns (result: seq<Json>)
    ensures result == EncodeAll(path, DiffOps(source, target))
    decreases source, 1
  {
    result := [];
    if JsonEq(source, target) {
      return;
    }
    if TypeOf(source) != TypeOf(target) {
      result := result + [Encode(path, Replace([], target))];
    } else {
      match source {
        case Arr(_) => result := DiffArrays(source, target, path);
        case Obj(_) => result := DiffObjects(source, target, path);
        case _ => result := result + [Encode(path, Replace([], target))];
      }
    }
  }

  /** The array case: three passes over one result. */
  method DiffArrays(source: Json, target: Json, path: string) returns (result: seq<Json>)
    requires source.Arr? && target.Arr?
    ensures result == EncodeAll(path, ArrayOps(source, target))
    decreases source, 0, 1
  {
    var i;
    result, i := DiffCommon(source, target, path);
    result, i := RemoveTail(result, path, source.a, i);
    result := AppendTail(result, path, target.a, i, Common(source.a, target.a));
    var m := Common(source.a, target.a);
    var common, removed, added := DiffElements(source, target, 0), Removes(m, |source.a|), Appends(target.a, m);
    EncodeAppend(path, removed, added);
    EncodeAppend(path, common, removed + added);
    Assoc(EncodeAll(path, common), EncodeAll(path, removed), EncodeAll(path, added));
  }

  /** First pass: traverse common elements. */
  method DiffCommon(source: Json, target: Json, path: string) returns (result: seq<Json>, i: nat)
    requires source.Arr? && target.Arr?
    ensures i == Common(source.a, target.a) && result == EncodeAll(path, DiffElements(source, target, 0))
    decreases source, 0, 0
  {
    result, i := [], 0;
    ghost var all := EncodeAll(path, DiffElements(source, target, 0));
    while i < |source.a| && i < |target.a|
      invariant 0 <= i <= Common(source.a, target.a)
      invariant result + EncodeAll(path, DiffElements(source, target, i)) == all
    {
      var tempDiff := Diff(source.a[i], target.a[i], path + "/" + Numeral(i));
      ElementStep(path, source, target, i);
      Assoc(result, tempDiff, EncodeAll(path, DiffElements(source, target, i + 1)));
      result := result + tempDiff;
      i := i + 1;
    }
  }

  /** Second pass: every removal is inserted in front of the previous one, at the same position. */
  method RemoveTail(before: seq<Json>, path: string, x: seq<Json>, start: nat) returns (result: seq<Json>, i: nat)
    requires start <= |x|
    ensures i == |x|
    ensures result == before + EncodeAll(path, Removes(start, |x|))
  {
    result, i := before, start;
    var endIndex := |result|;
    while i < |x|
      invariant start <= i <= |x|
      invariant result == before + EncodeAll(path, Removes(start, i))
    {
      RemoveStep(path, start, i);
      var element := Obj(map["op" := Str("remove"), "path" := Str(path + "/" + Numeral(i))]);
      InsertBetween(before, EncodeAll(path, Removes(start, i)), element);
      result := Insert(result, endIndex, element);
      i := i + 1;
    }
  }

  /** Third pass: the target's elements beyond index start. */
  method AppendTail(before: seq<Json>, path: string, y: seq<Json>, start: nat, ghost common: nat)
    returns (result: seq<Json>)
    requires start == common || |y| == common <= start
    ensures result == before + EncodeAll(path, Appends(y, common))
  {
    result := before;
    var i := start;
    while i < |y|
      invariant start <= i
      invariant start == common || i == start
      invariant result + EncodeAll(path, Appends(y, i)) == before + EncodeAll(path, Appends(y, common))
    {
      AppendStep(path, y, i);
      var element := Obj(map["op" := Str("add"), "path" := Str(path + "/" + Numeral(i)), "value" := y[i]]);
      Assoc(result, [element], EncodeAll(path, Appends(y, i + 1)));
      result := result + [element];
      i := i + 1;
    }
  }

  lemma AppendStep(path: string, y: seq<Json>, i: nat)
    requires i < |y|
    ensures EncodeAll(path, Appends(y, i)) ==
      [Obj(map["op" := Str("add"), "path" := Str(path + "/" + Numeral(i)), "value" := y[i]])]
      + EncodeAll(path, Appends(y, i + 1))
  {
    SingleTokenPath(path, i);
    EncodeAppend(path, [Add([Numeral(i)], y[i])], Appends(y, i + 1));
  }

  lemma RemoveStep(path: string, start: nat, i: nat)
    requires start <= i
    ensures EncodeAll(path, Removes(start, i + 1)) ==
      [Obj(map["op" := Str("remove"), "path" := Str(path + "/" + Numeral(i))])] + EncodeAll(path, Removes(start, i))
  {
    SingleTokenPath(path, i);
    EncodeAppend(path, [Remove([Numeral(i)])], Removes(start, i));
  }

  lemma InsertBetween<T>(a: seq<T>, b: seq<T>, x: T)
    ensures Insert(a + b, |a|, x) == a + ([x] + b)
  {}

  lemma SingleTokenPath(path: string, i: nat)
    ensures path + ToString([Numeral(i)]) == path + "/" + Numeral(i)
  {
    EscapeNumeral(i);
    SingleKeyPath(path, Numeral(i));
  }

  lemma SingleKeyPath(path: string, k: string)
    ensures path + ToString([k]) == path + "/" + Escape(k)
  {
    assert [k] + [] == [k];
    PrefixedPath(path, k, []);
    assert path + "/" + Escape(k) + "" == path + "/" + Escape(k);
  }

  lemma ElementStep(path: string, source: Json, target: Json, i: nat)
    requires source.Arr? && target.Arr? && i < Common(source.a, target.a)
    ensures EncodeAll(path, DiffElements(source, target, i)) ==
      EncodeAll(path + "/" + Numeral(i), DiffOps(source.a[i], target.a[i]))
      + EncodeAll(path, DiffElements(source, target, i + 1))
  {
    var ops := DiffOps(source.a[i], target.a[i]);
    EscapeNumeral(i);
    EncodeLifted(path, Numeral(i), ops);
    EncodeAppend(path, LiftAll([Numeral(i)], ops), DiffElements(source, target, i + 1));
  }

  /** The object case: one pass over each object, in key order. */
  method DiffObjects(source: Json, target: Json, path: string) returns (result: seq<Json>)
    requires source.Obj? && target.Obj?
    ensures result == EncodeAll(path, ObjectOps(source, target))
    decreases source, 0, 1
  {
    var kx, ky := SortedKeys(source.o.Keys), SortedKeys(target.o.Keys);
    result := DiffMembersInOrder(source, target, path, kx);
    result := AddMembersInOrder(result, path, source.o, target.o, ky);
    EncodeAppend(path, DiffMembers(source, target, kx), AddMembers(source.o, target.o, ky));
  }

  /** First pass: traverse the source's members. */
  method DiffMembersInOrder(source: Json, target: Json, path: string, ks: seq<string>) returns (result: seq<Json>)
    requires source.Obj? && target.Obj? && forall k | k in ks :: k in source.o
    ensures result == EncodeAll(path, DiffMembers(source, target, ks))
    decreases source, 0, 0
  {
    result := [];
    ghost var all := EncodeAll(path, DiffMembers(source, target, ks));
    var n := 0;
    while n < |ks|
      invariant 0 <= n <= |ks|
      invariant result + EncodeAll(path, DiffMembers(source, target, ks[n..])) == all
    {
      var k := ks[n];
      assert ks[n..] == [k] + ks[n + 1..];
      MemberStep(path, source, target, k, ks[n + 1..]);
      var part;
      if k in target.o {
        part := Diff(source.o[k], target.o[k], path + "/" + Escape(k));
      } else {
        part := [Obj(map["op" := Str("remove"), "path" := Str(path + "/" + Escape(k))])];
      }
      Assoc(result, part, EncodeAll(path, DiffMembers(source, target, ks[n + 1..])));
      result := result + part;
      n := n + 1;
    }
  }

  /** Second pass: the target's members that the source lacks. */
  method AddMembersInOrder(before: seq<Json>, path: string, x: map<string, Json>, y: map<string, Json>, ks: seq<string>)
    returns (result: seq<Json>)
    requires forall k | k in ks :: k in y
    ensures result == before + EncodeAll(path, AddMembers(x, y, ks))
  {
    result := before;
    var n := 0;
    while n < |ks|
      invariant 0 <= n <= |ks|
      invariant result + EncodeAll(path, AddMembers(x, y, ks[n..])) == before + EncodeAll(path, AddMembers(x, y, ks))
    {
      var k := ks[n];
      assert ks[n..] == [k] + ks[n + 1..];
      if k in x {
        SkipMemberStep(path, x, y, k, ks[n + 1..]);
      } else {
        AddMemberStep(path, x, y, k, ks[n + 1..]);
        var element := Obj(map["op" := Str("add"), "path" := Str(path + "/" + Escape(k)), "value" := y[k]]);
        Assoc(result, [element], EncodeAll(path, AddMembers(x, y, ks[n + 1..])));
        result := result + [element];
      }
      n := n + 1;
    }
  }

  lemma SkipMemberStep(path: string, x: map<string, Json>, y: map<string, Json>, k: string, rest: seq<string>)
    requires k in y && k in x && forall r | r in rest :: r in y
    ensures EncodeAll(path, AddMembers(x, y, [k] + rest)) == EncodeAll(path, AddMembers(x, y, rest))
  {
    assert ([k] + rest)[1..] == rest;
    assert AddMembers(x, y, [k] + rest) == AddMembers(x, y, rest);
  }

  lemma AddMemberStep(path: string, x: map<string, Json>, y: map<string, Json>, k: string, rest: seq<string>)
    requires k in y && k !in x && forall r | r in rest :: r in y
    ensures EncodeAll(path, AddMembers(x, y, [k] + rest)) ==
      [Obj(map["op" := Str("add"), "path" := Str(path + "/" + Escape(k)), "value" := y[k]])]
      + EncodeAll(path, AddMembers(x, y, rest))
  {
    assert ([k] + rest)[1..] == rest;
    var op, later := Add([k], y[k]), AddMembers(x, y, rest);
    SingleKeyPath(path, k);
    assert AddMembers(x, y, [k] + rest) == [op] + later;
    EncodeAppend(path, [op], later);
    assert EncodeAll(path, [op]) == [Encode(path, op)];
  }

  lemma MemberStep(path: string, source: Json, target: Json, k: string, rest: seq<string>)
    requires source.Obj? && target.Obj? && k in source.o && forall r | r in rest :: r in source.o
    ensures EncodeAll(path, DiffMembers(source, target, [k] + rest)) ==
      (if k in target.o then EncodeAll(path + "/" + Escape(k), DiffOps(source.o[k], target.o[k]))
       else [Obj(map["op" := Str("remove"), "path" := Str(path + "/" + Escape(k))])])
      + EncodeAll(path, DiffMembers(source, target, rest))
  {
    assert ([k] + rest)[1..] == rest;
    if k in target.o {
      var ops := DiffOps(source.o[k], target.o[k]);
      EncodeLifted(path, k, ops);
      EncodeAppend(path, LiftAll([k], ops), DiffMembers(source, target, rest));
    } else {
      SingleKeyPath(path, k);
      EncodeAppend(path, [Remove([k])], DiffMembers(source, target, rest));
      assert EncodeAll(path, [Remove([k])]) == [Obj(map["op" := Str("remove"), "path" := Str(path + "/" + Escape(k))])];
    }
  }
}
