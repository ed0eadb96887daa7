/** How patch relates to RFC 6902, sections 4.1 to 4.6: what it computes, and what it accepts beyond the RFC. */
module PatchRfc {
  import opened Results
  import opened Json
  import opened JsonPointer
  import opened JsonPatch
  import opened PatchLifting
  import opened PatchLaws

  // ---------- the operations of RFC 6902 ----------

  /** Section 4 of RFC 6901: an index is a numeral without leading zeros that denotes an existing element. */
  ghost function RfcIndex(token: string, size: nat): (r: Option<nat>)
    ensures r.Some? ==> r.value < size && token == Numeral(r.value)
  {
    if exists i: nat :: i < size && token == Numeral(i)
    then
      var i: nat :| i < size && token == Numeral(i);
      Some(i)
    else None
  }

  ghost function RfcGet(doc: Json, p: Path): Option<Json> {
    if p == [] then Some(doc) else
      match doc
      case Obj(o) => if p[0] in o then RfcGet(o[p[0]], p[1..]) else None
      case Arr(a) =>
        var i := RfcIndex(p[0], |a|);
        if i.Some? then RfcGet(a[i.value], p[1..]) else None
      case _ => None
  }

  /** The document with its value at p, which must exist, replaced. */
  ghost function RfcSet(doc: Json, p: Path, v: Json): Json
    requires RfcGet(doc, p).Some?
  {
    if p == [] then v else
      match doc
      case Obj(o) => Obj(o[p[0] := RfcSet(o[p[0]], p[1..], v)])
      case Arr(a) =>
        var i := RfcIndex(p[0], |a|).value;
        Arr(a[i := RfcSet(a[i], p[1..], v)])
  }

  /** Section 4.1: an array index may be one past the end, and "-" means that one. */
  ghost function RfcGrow(parent: Json, token: string, v: Json): Option<Json> {
    match parent
    case Obj(o) => Some(Obj(o[token := v]))
    case Arr(a) =>
      if token == "-" then Some(Arr(a + [v])) else
        var i := RfcIndex(token, |a| + 1);
        if i.Some? then Some(Arr(a[..i.value] + [v] + a[i.value..])) else None
    case _ => None
  }

  /** Section 4.2: what is removed must exist. */
  ghost function RfcShrink(parent: Json, token: string): Option<Json> {
    match parent
    case Obj(o) => if token in o then Some(Obj(o - {token})) else None
    case Arr(a) =>
      var i := RfcIndex(token, |a|);
      if i.Some? then Some(Arr(a[..i.value] + a[i.value + 1..])) else None
    case _ => None
  }

  ghost function RfcReplaceParent(doc: Json, p: Path, parent: Option<Json>): Option<Json>
    requires p != [] && RfcGet(doc, Front(p)).Some?
  {
    if parent.Some? then Some(RfcSet(doc, Front(p), parent.value)) else None
  }

  ghost function RfcAdd(doc: Json, p: Path, v: Json): Option<Json> {
    if p == [] then Some(v)
    else if RfcGet(doc, Front(p)).None? then None
    else RfcReplaceParent(doc, p, RfcGrow(RfcGet(doc, Front(p)).value, Last(p), v))
  }

  ghost function RfcRemove(doc: Json, p: Path): Option<Json> {
    if p == [] || RfcGet(doc, Front(p)).None? then None
    else RfcReplaceParent(doc, p, RfcShrink(RfcGet(doc, Front(p)).value, Last(p)))
  }

  /** Sections 4.1 to 4.6; None where the RFC calls for an error. */
  ghost function RfcApply(doc: Json, op: Op): Option<Json> {
    match op
    case Add(p, v) => RfcAdd(doc, p, v)
    case Remove(p) => RfcRemove(doc, p)
    case Replace(p, v) => if RfcGet(doc, p).Some? then Some(RfcSet(doc, p, v)) else None
    case Move(from, p) =>
      if from < p || RfcGet(doc, from).None? || RfcRemove(doc, from).None? then None
      else RfcAdd(RfcRemove(doc, from).value, p, RfcGet(doc, from).value)
    case Copy(from, p) =>
      if RfcGet(doc, from).None? then None else RfcAdd(doc, p, RfcGet(doc, from).value)
    case Test(p, v) =>
      if RfcGet(doc, p).Some? && JsonEq(RfcGet(doc, p).value, v) then Some(doc) else None
  }

  /** Every array can be indexed, and appended to, with a C++ int. */
  predicate Indexable(j: Json) {
    match j
    case Arr(a) => |a| <= INT_MAX && forall i | 0 <= i < |a| :: Indexable(a[i])
    case Obj(o) => forall k | k in o :: Indexable(o[k])
    case _ => true
  }

  // ---------- indices ----------

  lemma RfcIndexOutcome(token: string, size: nat)
    requires RfcIndex(token, size).Some?
    ensures var i := RfcIndex(token, size).value;
      var outcome := if i <= INT_MAX then Ok(i) else Err(StdOutOfRange);
      && token != "-" && IsNumeral(token) && DigitsValue(token) == i
      && ArrayIndex(token) == outcome
      && CheckedIndex(token, size) == outcome
      && CreatingIndex(token, size) == outcome
  {
    ArrayIndexOfNumeral(RfcIndex(token, size).value);
    NumeralValue(RfcIndex(token, size).value);
    assert IsDigit(token[0]);
  }

  /** An index that std::stoi reads is one that the RFC permits exactly if it is written as a plain numeral. */
  lemma RfcIndexIff(token: string, size: nat)
    requires ArrayIndex(token).Ok? && 0 <= ArrayIndex(token).value < size
    ensures RfcIndex(token, size).Some? <==> IsNumeral(token)
    ensures RfcIndex(token, size).Some? ==> RfcIndex(token, size).value == ArrayIndex(token).value
  {
    if RfcIndex(token, size).Some? { RfcIndexOutcome(token, size); }
    if IsNumeral(token) {
      NumeralOfDigits(token);
      ArrayIndexOfNumeral(DigitsValue(token));
    }
  }

  // ---------- navigation ----------

  /** Every token that steps into an array is a plain numeral. */
  predicate Canonical(doc: Json, p: Path) {
    p == [] ||
    match doc
    case Obj(o) => p[0] in o ==> Canonical(o[p[0]], p[1..])
    case Arr(a) =>
      var i := CheckedIndex(p[0], |a|);
      IsNumeral(p[0]) && (i.Ok? ==> Canonical(a[i.value], p[1..]))
    case _ => true
  }

  /** A location that at finds is one of RFC 6901 exactly if its path is canonical, and then it is the same one. */
  lemma {:induction false} FoundIsRfcIff(doc: Json, p: Path, v: Json)
    requires At(doc, p).Ok?
    ensures RfcGet(doc, p).Some? <==> Canonical(doc, p)
    ensures RfcGet(doc, p).Some? ==> At(doc, p) == Ok(RfcGet(doc, p).value) && Put(doc, p, v) == RfcSet(doc, p, v)
  {
    if p != [] {
      match doc
      case Obj(o) => FoundIsRfcIff(o[p[0]], p[1..], v);
      case Arr(a) =>
        RfcIndexIff(p[0], |a|);
        FoundIsRfcIff(a[CheckedIndex(p[0], |a|).value], p[1..], v);
    }
  }

  /** No token that steps into an array names an index above INT_MAX. */
  ghost predicate Readable(doc: Json, p: Path) {
    p == [] ||
    match doc
    case Obj(o) => p[0] in o ==> Readable(o[p[0]], p[1..])
    case Arr(a) =>
      var i := RfcIndex(p[0], |a|);
      i.Some? ==> i.value <= INT_MAX && Readable(a[i.value], p[1..])
    case _ => true
  }

  /** A location of RFC 6901 is found, or std::stoi throws on the way, whichever kind of navigation is used. */
  lemma {:induction false} RfcIsFound(doc: Json, p: Path, e: Edit)
    requires RfcGet(doc, p).Some?
    ensures At(doc, p).Ok? || At(doc, p) == EditAt(doc, p, e) == EditCreating(doc, p, e) == Err(StdOutOfRange)
    ensures At(doc, p).Ok? <==> Readable(doc, p)
    ensures Indexable(doc) ==> Readable(doc, p) && Indexable(RfcGet(doc, p).value)
  {
    if p != [] {
      match doc
      case Obj(o) => RfcIsFound(o[p[0]], p[1..], e);
      case Arr(a) =>
        RfcIndexOutcome(p[0], |a|);
        RfcIsFound(a[RfcIndex(p[0], |a|).value], p[1..], e);
    }
  }

  lemma {:induction false} IndexableSet(doc: Json, p: Path, v: Json)
    requires Indexable(doc) && RfcGet(doc, p).Some? && Indexable(v)
    ensures Indexable(RfcSet(doc, p, v))
  {
    if p != [] {
      match doc
      case Obj(o) => IndexableSet(o[p[0]], p[1..], v);
      case Arr(a) => IndexableSet(a[RfcIndex(p[0], |a|).value], p[1..], v);
    }
  }

  // ---------- the containers ----------

  /** The member or element that add names in a container, in the RFC's notation. */
  predicate GrowForm(parent: Json, token: string) {
    parent.Obj? || (parent.Arr? && (token == "-" || IsNumeral(token)))
  }

  /** The member or element that remove names in a container, in the RFC's notation. */
  predicate ShrinkForm(parent: Json, token: string) {
    parent.Obj? || (parent.Arr? && IsNumeral(token))
  }

  lemma GrowIff(parent: Json, token: string, v: Json)
    requires ApplyEdit(parent, AddChild(token, v)).Ok?
    ensures RfcGrow(parent, token, v).Some? <==> GrowForm(parent, token)
    ensures RfcGrow(parent, token, v).Some? ==>
      ApplyEdit(parent, AddChild(token, v)) == Ok(RfcGrow(parent, token, v).value)
  {
    if parent.Arr? && token != "-" { RfcIndexIff(token, |parent.a| + 1); }
  }

  lemma ShrinkIff(parent: Json, token: string)
    requires ApplyEdit(parent, RemoveChild(token)).Ok?
    ensures RfcShrink(parent, token).Some? <==> ShrinkForm(parent, token)
    ensures RfcShrink(parent, token).Some? ==>
      ApplyEdit(parent, RemoveChild(token)) == Ok(RfcShrink(parent, token).value)
  {
    if parent.Arr? { RfcIndexIff(token, |parent.a|); }
  }

  predicate ReadableIn(parent: Json, token: string) {
    parent.Arr? && IsNumeral(token) ==> DigitsValue(token) <= INT_MAX
  }

  lemma GrowOutcome(parent: Json, token: string, v: Json)
    requires RfcGrow(parent, token, v).Some?
    ensures var r := ApplyEdit(parent, AddChild(token, v)); r.Ok? || r == Err(StdOutOfRange)
    ensures ApplyEdit(parent, AddChild(token, v)).Ok? <==> ReadableIn(parent, token)
    ensures Indexable(parent) ==> ReadableIn(parent, token)
  {
    if parent.Arr? && token != "-" { RfcIndexOutcome(token, |parent.a| + 1); }
  }

  lemma IndexableShrink(parent: Json, token: string)
    requires Indexable(parent) && RfcShrink(parent, token).Some?
    ensures Indexable(RfcShrink(parent, token).value)
  {
    if parent.Arr? {
      var i, r := RfcIndex(token, |parent.a|).value, RfcShrink(parent, token).value.a;
      forall k | 0 <= k < |r| ensures Indexable(r[k]) { assert r[k] == parent.a[if k < i then k else k + 1]; }
    }
  }

  lemma ShrinkOutcome(parent: Json, token: string)
    requires RfcShrink(parent, token).Some?
    ensures var r := ApplyEdit(parent, RemoveChild(token)); r.Ok? || r == Err(StdOutOfRange)
    ensures ApplyEdit(parent, RemoveChild(token)).Ok? <==> ReadableIn(parent, token)
    ensures Indexable(parent) ==> ReadableIn(parent, token) && Indexable(RfcShrink(parent, token).value)
  {
    if parent.Arr? { RfcIndexOutcome(token, |parent.a|); }
    if Indexable(parent) { IndexableShrink(parent, token); }
  }

  // ---------- add and remove ----------

  /** The parent exists at a canonical path and is a container in which the last token names a place. */
  predicate AddForm(doc: Json, p: Path) {
    p == [] ||
    (At(doc, Front(p)).Ok? && Canonical(doc, Front(p)) && GrowForm(At(doc, Front(p)).value, Last(p)))
  }

  predicate RemoveForm(doc: Json, p: Path) {
    p != [] && At(doc, Front(p)).Ok? && Canonical(doc, Front(p)) && ShrinkForm(At(doc, Front(p)).value, Last(p))
  }

  /** The same for the place that an add or a remove names. */
  ghost predicate PlaceReadable(doc: Json, p: Path) {
    p == [] ||
    (Readable(doc, Front(p)) && (RfcGet(doc, Front(p)).Some? ==> ReadableIn(RfcGet(doc, Front(p)).value, Last(p))))
  }

  lemma AddOutcome(doc: Json, p: Path, v: Json)
    requires RfcAdd(doc, p, v).Some?
    ensures var r := OperationAdd(doc, p, v); r.Ok? || r == Err(StdOutOfRange)
    ensures OperationAdd(doc, p, v).Ok? <==> PlaceReadable(doc, p)
    ensures Indexable(doc) ==> PlaceReadable(doc, p)
  {
    if p != [] {
      RfcIsFound(doc, Front(p), AddChild(Last(p), v));
      if At(doc, Front(p)).Ok? {
        FoundIsRfcIff(doc, Front(p), v);
        AddUnderExistingParent(doc, p, v);
        GrowOutcome(RfcGet(doc, Front(p)).value, Last(p), v);
      } else if |p| > 1 {
        assert p[..1] == [Front(p)[0]];
        FirstStepOverflows(doc, Front(p));
      }
    }
  }

  lemma FirstStepOverflows(doc: Json, p: Path)
    requires p != [] && At(doc, p) == Err(StdOutOfRange)
    ensures At(doc, [p[0]]).Ok? || At(doc, [p[0]]) == Err(StdOutOfRange)
  {
    assert [p[0]][1..] == [];
  }

  lemma AddIff(doc: Json, p: Path, v: Json)
    requires OperationAdd(doc, p, v).Ok?
    ensures RfcAdd(doc, p, v).Some? <==> AddForm(doc, p)
    ensures RfcAdd(doc, p, v).Some? ==> OperationAdd(doc, p, v) == Ok(RfcAdd(doc, p, v).value)
  {
    if p != [] {
      if RfcGet(doc, Front(p)).Some? { RfcIsFound(doc, Front(p), AddChild(Last(p), v)); }
      if At(doc, Front(p)).Ok? {
        var parent := At(doc, Front(p)).value;
        var grown := ApplyEdit(parent, AddChild(Last(p), v));
        AddUnderExistingParent(doc, p, v);
        GrowIff(parent, Last(p), v);
        FoundIsRfcIff(doc, Front(p), grown.value);
      }
    }
  }

  lemma RemoveOutcome(doc: Json, p: Path)
    requires RfcRemove(doc, p).Some?
    ensures var r := OperationRemove(doc, p); r.Ok? || r == Err(StdOutOfRange)
    ensures OperationRemove(doc, p).Ok? <==> PlaceReadable(doc, p)
    ensures Indexable(doc) ==> PlaceReadable(doc, p) && Indexable(RfcRemove(doc, p).value)
  {
    var parent := RfcGet(doc, Front(p)).value;
    RfcIsFound(doc, Front(p), RemoveChild(Last(p)));
    if At(doc, Front(p)).Ok? {
      FoundIsRfcIff(doc, Front(p), Null);
      RemoveUnderExistingParent(doc, p);
      ShrinkOutcome(parent, Last(p));
      if Indexable(doc) { IndexableSet(doc, Front(p), RfcShrink(parent, Last(p)).value); }
    }
  }

  lemma RemoveIff(doc: Json, p: Path)
    requires OperationRemove(doc, p).Ok?
    ensures RfcRemove(doc, p).Some? <==> RemoveForm(doc, p)
    ensures RfcRemove(doc, p).Some? ==> OperationRemove(doc, p) == Ok(RfcRemove(doc, p).value)
  {
    if RfcGet(doc, Front(p)).Some? { RfcIsFound(doc, Front(p), RemoveChild(Last(p))); }
    if At(doc, Front(p)).Ok? {
      var parent := At(doc, Front(p)).value;
      RemoveUnderExistingParent(doc, p);
      ShrinkIff(parent, Last(p));
      FoundIsRfcIff(doc, Front(p), ApplyEdit(parent, RemoveChild(Last(p))).value);
    }
  }

  // ---------- all operations ----------

  /** The guard that patch lacks: the operation is one that RFC 6902 permits, given that patch accepts it. */
  predicate RfcForm(doc: Json, op: Op) {
    match op
    case Add(p, _) => AddForm(doc, p)
    case Remove(p) => RemoveForm(doc, p)
    case Replace(p, _) => Canonical(doc, p)
    case Move(from, p) =>
      var rest := OperationRemove(doc, from);
      !(from < p) && Canonical(doc, from) && RemoveForm(doc, from) && rest.Ok? && AddForm(rest.value, p)
    case Copy(from, p) => Canonical(doc, from) && AddForm(doc, p)
    case Test(p, _) => Canonical(doc, p)
  }

  /** Of the operations that patch accepts, RFC 6902 permits exactly those in its form, with the same result. */
  lemma AcceptedIsRfcIff(doc: Json, op: Op)
    requires ApplyOp(doc, op).Ok?
    ensures RfcApply(doc, op).Some? <==> RfcForm(doc, op)
    ensures RfcApply(doc, op).Some? ==> ApplyOp(doc, op) == Ok(RfcApply(doc, op).value)
  {
    match op
    case Add(p, v) => AddIff(doc, p, v);
    case Remove(p) => RemoveIff(doc, p);
    case Replace(p, v) => ReplaceIff(doc, p, v);
    case Move(from, p) =>
      var v, rest := At(doc, from).value, OperationRemove(doc, from).value;
      FoundIsRfcIff(doc, from, Null);
      RemoveIff(doc, from);
      AddIff(rest, p, v);
    case Copy(from, p) =>
      FoundIsRfcIff(doc, from, Null);
      AddIff(doc, p, At(doc, from).value);
    case Test(p, v) => FoundIsRfcIff(doc, p, Null);
  }

  lemma ReplaceIff(doc: Json, p: Path, v: Json)
    requires EditAt(doc, p, SetTo(v)).Ok?
    ensures RfcGet(doc, p).Some? <==> Canonical(doc, p)
    ensures RfcGet(doc, p).Some? ==> EditAt(doc, p, SetTo(v)) == Ok(RfcSet(doc, p, v))
  {
    EditedIsFound(doc, p, SetTo(v));
    FoundIsRfcIff(doc, p, v);
  }

  lemma {:induction false} EditedIsFound(doc: Json, p: Path, e: Edit)
    requires EditAt(doc, p, e).Ok?
    ensures At(doc, p).Ok?
  {
    if p != [] {
      match doc
      case Obj(o) => EditedIsFound(o[p[0]], p[1..], e);
      case Arr(a) => EditedIsFound(a[CheckedIndex(p[0], |a|).value], p[1..], e);
    }
  }

  /** std::stoi can read every index that the operation names. */
  ghost predicate OpReadable(doc: Json, op: Op) {
    match op
    case Add(p, _) => PlaceReadable(doc, p)
    case Remove(p) => PlaceReadable(doc, p)
    case Replace(p, _) => Readable(doc, p)
    case Move(from, p) =>
      var rest := RfcRemove(doc, from);
      Readable(doc, from) && PlaceReadable(doc, from) && (rest.Some? ==> PlaceReadable(rest.value, p))
    case Copy(from, p) => Readable(doc, from) && PlaceReadable(doc, p)
    case Test(p, _) => Readable(doc, p)
  }

  /** Wherever RFC 6902 prescribes a result, patch computes it, unless std::stoi throws on an index above INT_MAX. */
  lemma RfcIsAccepted(doc: Json, op: Op)
    requires RfcApply(doc, op).Some?
    ensures var r := ApplyOp(doc, op); r == Ok(RfcApply(doc, op).value) || r == Err(StdOutOfRange)
    ensures ApplyOp(doc, op).Ok? <==> OpReadable(doc, op)
    ensures Indexable(doc) ==> OpReadable(doc, op)
  {
    match op {
      case Add(p, v) => AddOutcome(doc, p, v);
      case Remove(p) => RemoveOutcome(doc, p);
      case Replace(p, v) =>
        RfcIsFound(doc, p, SetTo(v));
        if At(doc, p).Ok? { FoundIsRfcIff(doc, p, v); }
      case Move(from, p) => MoveOutcome(doc, from, p);
      case Copy(from, p) =>
        RfcIsFound(doc, from, SetTo(Null));
        if At(doc, from).Ok? {
          FoundIsRfcIff(doc, from, Null);
          AddOutcome(doc, p, At(doc, from).value);
        }
      case Test(p, v) =>
        RfcIsFound(doc, p, SetTo(v));
        if At(doc, p).Ok? { FoundIsRfcIff(doc, p, v); }
    }
    if ApplyOp(doc, op).Ok? { AcceptedIsRfcIff(doc, op); }
  }

  lemma MoveOutcome(doc: Json, from: Path, p: Path)
    requires RfcApply(doc, Move(from, p)).Some?
    ensures var r := ApplyOp(doc, Move(from, p)); r.Ok? || r == Err(StdOutOfRange)
    ensures ApplyOp(doc, Move(from, p)).Ok? <==> OpReadable(doc, Move(from, p))
    ensures Indexable(doc) ==> OpReadable(doc, Move(from, p))
  {
    RfcIsFound(doc, from, SetTo(Null));
    RemoveOutcome(doc, from);
    if At(doc, from).Ok? && OperationRemove(doc, from).Ok? {
      FoundIsRfcIff(doc, from, Null);
      RemoveIff(doc, from);
      AddOutcome(RfcRemove(doc, from).value, p, At(doc, from).value);
    }
  }

  // ---------- whole patches ----------

  ghost function RfcApplyAll(doc: Json, ops: seq<Op>): Option<Json>
    decreases ops
  {
    if ops == [] then Some(doc)
    else if RfcApply(doc, ops[0]).None? then None
    else RfcApplyAll(RfcApply(doc, ops[0]).value, ops[1..])
  }

  /** Each operation is in the RFC's form for the document to which patch applies it. */
  predicate AllRfcForm(doc: Json, ops: seq<Op>)
    decreases ops
  {
    ops == [] ||
    (RfcForm(doc, ops[0]) && (ApplyOp(doc, ops[0]).Ok? ==> AllRfcForm(ApplyOp(doc, ops[0]).value, ops[1..])))
  }

  /** Each operation names readable indices in the document to which the RFC applies it. */
  ghost predicate AllReadable(doc: Json, ops: seq<Op>)
    decreases ops
  {
    ops == [] ||
    (OpReadable(doc, ops[0]) && (RfcApply(doc, ops[0]).Some? ==> AllReadable(RfcApply(doc, ops[0]).value, ops[1..])))
  }

  /** The two directions for patches of any length. */
  lemma {:induction false} PatchAgreesWithRfc6902(doc: Json, ops: seq<Op>)
    ensures ApplyOps(doc, ops).Ok? ==>
      && (RfcApplyAll(doc, ops).Some? <==> AllRfcForm(doc, ops))
      && (RfcApplyAll(doc, ops).Some? ==> ApplyOps(doc, ops) == Ok(RfcApplyAll(doc, ops).value))
    ensures RfcApplyAll(doc, ops).Some? ==>
      && (ApplyOps(doc, ops).Ok? || ApplyOps(doc, ops) == Err(StdOutOfRange))
      && (ApplyOps(doc, ops).Ok? <==> AllReadable(doc, ops))
    decreases ops
  {
    if ops != [] {
      if RfcApply(doc, ops[0]).Some? { RfcIsAccepted(doc, ops[0]); }
      if ApplyOp(doc, ops[0]).Ok? {
        AcceptedIsRfcIff(doc, ops[0]);
        PatchAgreesWithRfc6902(ApplyOp(doc, ops[0]).value, ops[1..]);
      }
    }
  }

  // ---------- what patch accepts beyond the RFC ----------

  /** Below a scalar, remove does nothing and reports no error, whatever its last token says. */
  lemma RemoveBelowScalarSucceeds(doc: Json, p: Path)
    requires p != [] && At(doc, Front(p)).Ok? && !At(doc, Front(p)).value.Obj? && !At(doc, Front(p)).value.Arr?
    ensures ApplyOp(doc, Remove(p)) == Ok(doc) && RfcApply(doc, Remove(p)).None?
  {
    RemoveUnderExistingParent(doc, p);
    PutPut(doc, Front(p), Null, Null);
    AcceptedIsRfcIff(doc, Remove(p));
  }

  /** An add whose first token exists creates the missing objects behind it. */
  lemma AddCreatesParents(o: map<string, Json>, q: map<string, Json>, a: string, b: string, c: string, v: Json)
    requires a in o && o[a] == Obj(q) && b !in q
    ensures ApplyOp(Obj(o), Add([a, b, c], v)) == Ok(Obj(o[a := Obj(q[b := Obj(map[c := v])])]))
    ensures RfcApply(Obj(o), Add([a, b, c], v)).None?
  {
    var p := [a, b, c];
    assert Front(p) == [a, b] && Last(p) == c && p[..1] == [a] && [a, b][1..] == [b] && [b][1..] == [];
    assert [a][1..] == [] && At(Obj(o), [a]) == At(Obj(q), []);
    assert At(Obj(o), [a, b]) == At(Obj(q), [b]) == Err(OutOfRange(403));
    var last := Obj(map[c := v]);
    assert EditCreating(Null, [], AddChild(c, v)) == Ok(last);
    assert EditCreating(Obj(q), [b], AddChild(c, v)) == Ok(Obj(q[b := last]));
    assert EditCreating(Obj(o), [a, b], AddChild(c, v)) == Ok(Obj(o[a := Obj(q[b := last])]));
    AcceptedIsRfcIff(Obj(o), Add(p, v));
  }
}
