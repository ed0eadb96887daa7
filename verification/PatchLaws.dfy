/** Laws of single operations: inverses and conservation. */
module PatchLaws {
  import opened Results
  import opened Json
  import opened JsonPointer
  import opened JsonPatch
  import opened PatchLifting

  /** When the parent exists, operation_add creates nothing on the way and edits just the parent. */
  lemma AddUnderExistingParent(doc: Json, p: Path, v: Json)
    requires p != [] && At(doc, Front(p)).Ok?
    ensures OperationAdd(doc, p, v) == Placed(doc, Front(p), ApplyEdit(At(doc, Front(p)).value, AddChild(Last(p), v)))
  {
    assert Front(p) + [] == Front(p);
    EditCreatingPrefix(doc, Front(p), [], AddChild(Last(p), v));
    if |p| > 1 {
      FirstStepExists(doc, Front(p));
      assert p[..1] == [Front(p)[0]];
    }
  }

  lemma RemoveUnderExistingParent(doc: Json, p: Path)
    requires p != [] && At(doc, Front(p)).Ok?
    ensures OperationRemove(doc, p) == Placed(doc, Front(p), ApplyEdit(At(doc, Front(p)).value, RemoveChild(Last(p))))
  {
    assert Front(p) + [] == Front(p);
    EditAtPrefix(doc, Front(p), [], RemoveChild(Last(p)));
  }

  // ---------- add and remove ----------

  /** Neither the append token nor a numeral with leading zeros, which lookup refuses. */
  predicate CanBeLookedUp(token: string) {
    token != "-" && !(|token| > 1 && token[0] == '0')
  }

  lemma {:induction false} CreatedValueIsThere(doc: Json, parent: Path, key: string, v: Json)
    requires EditCreating(doc, parent, AddChild(key, v)).Ok?
    requires CanBeLookedUp(key) && forall t | t in parent :: CanBeLookedUp(t)
    ensures At(EditCreating(doc, parent, AddChild(key, v)).value, parent + [key]) == Ok(v)
    decreases |parent|
  {
    if parent == [] {
      assert [] + [key] == [key] && [key][1..] == [];
    } else {
      assert (parent + [key])[1..] == parent[1..] + [key];
      match Container(doc, parent[0])
      case Obj(o) =>
        CreatedValueIsThere(if parent[0] in o then o[parent[0]] else Null, parent[1..], key, v);
      case Arr(a) =>
        var i := CreatingIndex(parent[0], |a|).value;
        var g := Grown(a, i);
        CreatedValueIsThere(g[i], parent[1..], key, v);
        assert CanBeLookedUp(parent[0]);
        assert (parent + [key])[0] == parent[0] && CheckedIndex(parent[0], |g|) == Ok(i);
        var child := EditCreating(g[i], parent[1..], AddChild(key, v)).value;
        assert g[i := child][i] == child;
      case _ =>
    }
  }

  /** After a successful add the value can be found at its path, even where the way to it had to be created. */
  lemma AddedValueIsThere(doc: Json, p: Path, v: Json)
    requires OperationAdd(doc, p, v).Ok? && forall t | t in p :: CanBeLookedUp(t)
    ensures At(OperationAdd(doc, p, v).value, p) == Ok(v)
  {
    if p != [] {
      assert p == Front(p) + [Last(p)];
      CreatedValueIsThere(doc, Front(p), Last(p), v);
    }
  }

  /** The last token names a member that is not there yet, or a position in an array. */
  predicate NamesNewPlace(parent: Json, token: string) {
    match parent
    case Obj(o) => token !in o
    case Arr(a) => token != "-" && ArrayIndex(token).Ok? && 0 <= ArrayIndex(token).value <= |a|
    case _ => false
  }

  /** Removing what add has just put somewhere restores the document exactly when the place was new. */
  lemma RemoveUndoesAddIff(doc: Json, p: Path, v: Json)
    requires p != [] && At(doc, Front(p)).Ok?
    ensures
      var added := OperationAdd(doc, p, v);
      (added.Ok? && OperationRemove(added.value, p) == Ok(doc)) <==> NamesNewPlace(At(doc, Front(p)).value, Last(p))
  {
    var parent := At(doc, Front(p)).value;
    var grown := ApplyEdit(parent, AddChild(Last(p), v));
    AddUnderExistingParent(doc, p, v);
    EditUndone(parent, Last(p), v);
    if grown.Ok? {
      var added := Put(doc, Front(p), grown.value);
      RemoveUnderExistingParent(added, p);
      var shrunk := ApplyEdit(grown.value, RemoveChild(Last(p)));
      if shrunk.Ok? {
        PutPut(doc, Front(p), grown.value, shrunk.value);
        PutPut(doc, Front(p), parent, parent);
      }
    }
  }

  lemma DashIsNoIndex()
    ensures ArrayIndex("-") == Err(StdInvalidArgument)
  {
    assert CountSpaces("-") == 0 && CountDigits("-"[1..]) == 0;
  }

  lemma ElementUndone(a: seq<Json>, token: string, v: Json)
    requires token != "-"
    ensures
      var i, grown := ArrayIndex(token), ApplyEdit(Arr(a), AddChild(token, v));
      if i.Ok? && 0 <= i.value <= |a| then grown.Ok? && ApplyEdit(grown.value, RemoveChild(token)) == Ok(Arr(a))
      else grown.Err?
  {
    var i := ArrayIndex(token);
    if i.Ok? && 0 <= i.value <= |a| { assert Erase(Insert(a, i.value, v), i.value) == a; }
  }

  lemma EditUndone(parent: Json, token: string, v: Json)
    ensures
      var grown := ApplyEdit(parent, AddChild(token, v));
      (grown.Ok? && ApplyEdit(grown.value, RemoveChild(token)) == Ok(parent)) <==> NamesNewPlace(parent, token)
  {
    match parent
    case Obj(o) =>
      if token !in o { assert o[token := v] - {token} == o; }
    case Arr(a) => if token == "-" { DashIsNoIndex(); } else { ElementUndone(a, token, v); }
    case _ =>
  }

  // ---------- move ----------

  /** The array once the element at i has been taken out and put back where the token says. */
  function Moved(a: seq<Json>, i: nat, to: string): Result<seq<Json>>
    requires i < |a|
  {
    if to == "-" then Ok(Erase(a, i) + [a[i]])
    else
      var j :- ArrayIndex(to);
      if 0 <= j < |a| then Ok(Insert(Erase(a, i), j, a[i])) else Err(OutOfRange(401))
  }

  lemma MovedIsPermutation(a: seq<Json>, i: nat, to: string)
    requires i < |a| && Moved(a, i, to).Ok?
    ensures |Moved(a, i, to).value| == |a| && multiset(Moved(a, i, to).value) == multiset(a)
    ensures Moved(a, i, to).value[if to == "-" then |a| - 1 else ArrayIndex(to).value] == a[i]
  {
    var rest := Erase(a, i);
    assert a == a[..i] + [a[i]] + a[i + 1..];
    if to != "-" {
      var j := ArrayIndex(to).value;
      assert rest == rest[..j] + rest[j..];
      assert multiset(rest) == multiset(rest[..j]) + multiset(rest[j..]);
    }
    assert multiset(a) == multiset(rest) + multiset{a[i]};
  }

  lemma MoveIsRemoveThenInsert(doc: Json, parent: Path, from: string, to: string, a: seq<Json>)
    requires At(doc, parent) == Ok(Arr(a)) && CheckedIndex(from, |a|).Ok?
    ensures
      var moved := Moved(a, CheckedIndex(from, |a|).value, to);
      ApplyOp(doc, Move(parent + [from], parent + [to])) ==
        if moved.Ok? then Ok(Put(doc, parent, Arr(moved.value))) else Err(moved.error)
  {
    var i := CheckedIndex(from, |a|).value;
    RemoveElement(doc, parent, from, a);
    AddElement(Put(doc, parent, Arr(Erase(a, i))), parent, to, Erase(a, i), a[i]);
    PlacedTwice(doc, parent, Arr(Erase(a, i)), ApplyEdit(Arr(Erase(a, i)), AddChild(to, a[i])));
    EditMoved(a, i, to);
    assert ApplyOp(doc, Move(parent + [from], parent + [to])) ==
      OperationAdd(Put(doc, parent, Arr(Erase(a, i))), parent + [to], a[i]);
  }

  lemma EditMoved(a: seq<Json>, i: nat, to: string)
    requires i < |a|
    ensures ApplyEdit(Arr(Erase(a, i)), AddChild(to, a[i])) ==
      if Moved(a, i, to).Ok? then Ok(Arr(Moved(a, i, to).value)) else Err(Moved(a, i, to).error)
  {}

  lemma RemoveElement(doc: Json, parent: Path, from: string, a: seq<Json>)
    requires At(doc, parent) == Ok(Arr(a)) && CheckedIndex(from, |a|).Ok?
    ensures var i := CheckedIndex(from, |a|).value;
      && At(doc, parent + [from]) == Ok(a[i])
      && OperationRemove(doc, parent + [from]) == Ok(Put(doc, parent, Arr(Erase(a, i))))
  {
    var p := parent + [from];
    assert Front(p) == parent && Last(p) == from;
    AtPrefix(doc, parent, [from]);
    assert [from][1..] == [];
    RemoveUnderExistingParent(doc, p);
  }

  lemma AddElement(doc: Json, parent: Path, to: string, a: seq<Json>, v: Json)
    requires At(doc, parent) == Ok(Arr(a))
    ensures OperationAdd(doc, parent + [to], v) == Placed(doc, parent, ApplyEdit(Arr(a), AddChild(to, v)))
  {
    var p := parent + [to];
    assert Front(p) == parent && Last(p) == to;
    AddUnderExistingParent(doc, p, v);
  }

  lemma PlacedTwice(doc: Json, p: Path, v: Json, r: Result<Json>)
    requires At(doc, p).Ok?
    ensures Placed(Put(doc, p, v), p, r) == Placed(doc, p, r)
  {
    if r.Ok? { PutPut(doc, p, v, r.value); }
  }

  lemma MoveFindsItsSource(doc: Json, parent: Path, from: string, p: Path, a: seq<Json>)
    requires At(doc, parent) == Ok(Arr(a)) && ApplyOp(doc, Move(parent + [from], p)).Ok?
    ensures CheckedIndex(from, |a|).Ok?
  {
    AtPrefix(doc, parent, [from]);
  }

  /**
   * A successful move within one array loses and duplicates nothing, and puts the element from the old index
   * at the new one; everything outside the array is as before.
   */
  lemma MoveWithinArray(doc: Json, parent: Path, from: string, to: string, a: seq<Json>, elsewhere: Path)
    requires At(doc, parent) == Ok(Arr(a))
    requires ApplyOp(doc, Move(parent + [from], parent + [to])).Ok?
    ensures
      var result := ApplyOp(doc, Move(parent + [from], parent + [to])).value;
      var moved := At(result, parent);
      var i := CheckedIndex(from, |a|);
      && moved.Ok? && moved.value.Arr? && i.Ok?
      && |moved.value.a| == |a| && multiset(moved.value.a) == multiset(a)
      && (to == "-" || (ArrayIndex(to).Ok? && 0 <= ArrayIndex(to).value < |a|))
      && moved.value.a[if to == "-" then |a| - 1 else ArrayIndex(to).value] == a[i.value]
      && (Diverge(doc, parent, elsewhere) ==> At(result, elsewhere) == At(doc, elsewhere))
  {
    MoveFindsItsSource(doc, parent, from, parent + [to], a);
    var i := CheckedIndex(from, |a|).value;
    MoveIsRemoveThenInsert(doc, parent, from, to, a);
    MovedIsPermutation(a, i, to);
    if Diverge(doc, parent, elsewhere) { PutFrame(doc, parent, Arr(Moved(a, i, to).value), elsewhere); }
  }
}
