/** basic_json::merge_patch: JSON Merge Patch (RFC 7396), in place. */
module MergePatch {
  import opened Results
  import opened Json

  // ---------- section 2 of RFC 7396 ----------

  function Members(j: Json): map<string, Json> {
    if j.Obj? then j.o else map[]
  }

  /** What MergePatch passes on for Target[Name]: the member, or an undefined value, which acts like null. */
  function MemberOrNull(o: map<string, Json>, k: string): Json {
    if k in o then o[k] else Null
  }

  predicate Deletes(patch: map<string, Json>, k: string) {
    k in patch && patch[k].Null?
  }

  /** MergePatch(Target, Patch), said of all names at once, so that the order of the patch's members is no matter. */
  function Merged(target: Json, patch: Json): Json
    decreases patch
  {
    match patch
    case Obj(p) =>
      var t := Members(target);
      Obj(map k | k in t.Keys + p.Keys && !Deletes(p, k) ::
        if k in p then Merged(MemberOrNull(t, k), p[k]) else t[k])
    case _ => patch
  }

  // ---------- the algorithm ----------

  /** A JSON value that is modified in place. */
  class Cell {
    var value: Json

    constructor (v: Json)
      ensures value == v
    {
      value := v;
    }

    /** erase(key) */
    method Erase(k: string)
      requires value.Obj?
      modifies this
      ensures value == Obj(old(value.o) - {k})
    {
      value := Obj(value.o - {k});
    }

    /** operator[](key): the member is created as null if it does not exist; its cell stands for the reference. */
    method Member(k: string) returns (c: Cell)
      requires value.Obj?
      modifies this
      ensures fresh(c) && c.value == if k in old(value.o) then old(value.o)[k] else Null
      ensures value == Obj(old(value.o)[k := c.value])
    {
      if k !in value.o { value := Obj(value.o[k := Null]); }
      c := new Cell(value.o[k]);
    }

    /**
     * merge_patch: the members of the patch are visited in an arbitrary order, and the result is that of RFC 7396
     * for every order.
     */
    method MergePatch(patch: Json)
      modifies this
      ensures value == Merged(old(value), patch)
      decreases patch
    {
      if patch.Obj? {
        if !value.Obj? { value := Obj(map[]); }
        ghost var t := value.o;
        var todo := patch.o.Keys;
        while todo != {}
          invariant todo <= patch.o.Keys && value.Obj?
          invariant forall k :: k in value.o <==>
            if k in patch.o && k !in todo then !Deletes(patch.o, k) else k in t
          invariant forall k | k in value.o ::
            value.o[k] == if k in patch.o && k !in todo then Merged(MemberOrNull(t, k), patch.o[k]) else t[k]
          decreases todo
        {
          var k :| k in todo;
          if patch.o[k].Null? {
            Erase(k);
          } else {
            var member := Member(k);
            member.MergePatch(patch.o[k]);
            value := Obj(value.o[k := member.value]);
          }
          todo := todo - {k};
        }
        assert value.o == Merged(Obj(t), patch).o;
      } else {
        value := patch;
      }
    }
  }

  // ---------- laws ----------

  /** A second application of the same patch changes nothing. */
  lemma {:induction false} MergeIdempotent(target: Json, patch: Json)
    ensures Merged(Merged(target, patch), patch) == Merged(target, patch)
    decreases patch
  {
    if patch.Obj? {
      var once, twice := Merged(target, patch).o, Merged(Merged(target, patch), patch).o;
      var t := Members(target);
      forall k | k in once ensures k in twice && once[k] == twice[k] {
        if k in patch.o { MergeIdempotent(MemberOrNull(t, k), patch.o[k]); }
      }
      assert once == twice;
    }
  }

  /** No member that can be reached through objects alone is null. */
  predicate NoNullMembers(j: Json) {
    j.Obj? ==> forall k | k in j.o :: !j.o[k].Null? && NoNullMembers(j.o[k])
  }

  lemma {:induction false} MergeIntroducesNoNulls(target: Json, patch: Json)
    requires NoNullMembers(target) && !patch.Null?
    ensures NoNullMembers(Merged(target, patch)) && !Merged(target, patch).Null?
    decreases patch
  {
    if patch.Obj? {
      var t, r := Members(target), Merged(target, patch).o;
      forall k | k in r ensures !r[k].Null? && NoNullMembers(r[k]) {
        if k in patch.o { MergeIntroducesNoNulls(MemberOrNull(t, k), patch.o[k]); }
      }
    }
  }

  /** The target already is as the patch wants it: named members have the values asked for, or are absent. */
  predicate Conforms(target: Json, patch: Json)
    decreases patch
  {
    match patch
    case Obj(p) =>
      target.Obj? && forall k | k in p ::
        if p[k].Null? then k !in target.o else k in target.o && Conforms(target.o[k], p[k])
    case _ => target == patch
  }

  /** A merge patch is without effect exactly on the targets that already satisfy each of its demands. */
  lemma {:induction false} MergeIsNoOpIff(target: Json, patch: Json)
    ensures Merged(target, patch) == target <==> Conforms(target, patch)
    decreases patch
  {
    if patch.Obj? {
      var r := Merged(target, patch).o;
      if target.Obj? {
        forall k | k in patch.o && k in target.o
          ensures Merged(target.o[k], patch.o[k]) == target.o[k] <==> Conforms(target.o[k], patch.o[k])
        {
          MergeIsNoOpIff(target.o[k], patch.o[k]);
        }
        if Conforms(target, patch) {
          assert r == target.o;
        }
        if r == target.o {
          forall k | k in patch.o
            ensures if patch.o[k].Null? then k !in target.o else k in target.o && Conforms(target.o[k], patch.o[k])
          {
            if !patch.o[k].Null? { assert k in r; }
          }
        }
      }
    }
  }

  function Lookup(j: Json, path: seq<string>): Option<Json> {
    if path == [] then Some(j)
    else if j.Obj? && path[0] in j.o then Lookup(j.o[path[0]], path[1..])
    else None
  }

  /** The patch leaves this location alone: on the way there it comes to an object that does not name the next key. */
  predicate Untouched(patch: Json, path: seq<string>)
    decreases patch
  {
    path != [] && patch.Obj? && (path[0] in patch.o ==> Untouched(patch.o[path[0]], path[1..]))
  }

  lemma {:induction false} MergeFrame(target: Json, patch: Json, path: seq<string>)
    requires Untouched(patch, path)
    ensures Lookup(Merged(target, patch), path) == Lookup(target, path)
    decreases patch
  {
    var t := Members(target);
    if path[0] in patch.o {
      MergeFrame(MemberOrNull(t, path[0]), patch.o[path[0]], path[1..]);
    }
  }

  /** Two patches that name no common member can be applied in either order, or at once. */
  lemma DisjointMergesCommute(target: Json, p: map<string, Json>, q: map<string, Json>)
    requires p.Keys !! q.Keys
    ensures Merged(Merged(target, Obj(p)), Obj(q)) == Merged(target, Obj(p + q))
    ensures Merged(Merged(target, Obj(p)), Obj(q)) == Merged(Merged(target, Obj(q)), Obj(p))
  {
    MergesCombine(target, p, q);
    MergesCombine(target, q, p);
    assert p + q == q + p;
  }

  lemma MergesCombine(target: Json, p: map<string, Json>, q: map<string, Json>)
    requires p.Keys !! q.Keys
    ensures Merged(Merged(target, Obj(p)), Obj(q)) == Merged(target, Obj(p + q))
  {
    var r := Merged(target, Obj(p)).o;
    var pq, both := Merged(Obj(r), Obj(q)).o, Merged(target, Obj(p + q)).o;
    forall k ensures (k in pq <==> k in both) && (k in both ==> pq[k] == both[k]) {
      MergesCombineAt(target, p, q, k);
    }
    assert pq == both;
  }

  /** One member of a merge. */
  lemma MergedAt(target: Json, p: map<string, Json>, k: string)
    ensures var t, r := Members(target), Merged(target, Obj(p)).o;
      && (k in r <==> (k in t || k in p) && !Deletes(p, k))
      && (k in r ==> r[k] == if k in p then Merged(MemberOrNull(t, k), p[k]) else t[k])
  {}

  lemma MergesCombineAt(target: Json, p: map<string, Json>, q: map<string, Json>, k: string)
    requires p.Keys !! q.Keys
    ensures
      var pq, both := Merged(Merged(target, Obj(p)), Obj(q)).o, Merged(target, Obj(p + q)).o;
      (k in pq <==> k in both) && (k in both ==> pq[k] == both[k])
  {
    if k in q {
      LaterPatchDecides(target, p, q, k);
    } else {
      EarlierPatchDecides(target, p, q, k);
    }
  }

  lemma LaterPatchDecides(target: Json, p: map<string, Json>, q: map<string, Json>, k: string)
    requires p.Keys !! q.Keys && k in q
    ensures
      var pq, both := Merged(Merged(target, Obj(p)), Obj(q)).o, Merged(target, Obj(p + q)).o;
      (k in pq <==> k in both) && (k in both ==> pq[k] == both[k])
  {
    var merged := Merged(target, Obj(p));
    MergedAt(target, p, k);
    assert k !in p && Members(merged) == merged.o && MemberOrNull(merged.o, k) == MemberOrNull(Members(target), k);
    MergedAt(merged, q, k);
    MergedAt(target, p + q, k);
  }

  lemma EarlierPatchDecides(target: Json, p: map<string, Json>, q: map<string, Json>, k: string)
    requires k !in q
    ensures
      var pq, both := Merged(Merged(target, Obj(p)), Obj(q)).o, Merged(target, Obj(p + q)).o;
      (k in pq <==> k in both) && (k in both ==> pq[k] == both[k])
  {
    var merged := Merged(target, Obj(p));
    assert Members(merged) == merged.o;
    MergedAt(target, p, k);
    MergedAt(merged, q, k);
    MergedAt(target, p + q, k);
  }
}
