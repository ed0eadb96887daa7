/** What a patch document says, which documents are refused, and with which exception. */
module PatchDocuments {
  import opened Results
  import opened Json
  import opened JsonPointer
  import opened JsonPatch
  import opened JsonDiff

  // ---------- the text of a pointer ----------

  /** A pointer is empty or begins with a slash, and every tilde in it begins an escape sequence. */
  predicate PointerText(s: string) {
    s == "" || (s[0] == '/' && TildesPaired(s))
  }

  lemma PairedParts(a: string, b: string)
    requires b != "" ==> b[0] == '/'
    ensures TildesPaired(a + b) <==> TildesPaired(a) && TildesPaired(b)
  {
    var s := a + b;
    assert forall i | 0 <= i < |a| :: s[i] == a[i];
    assert forall i | 0 <= i < |b| :: s[|a| + i] == b[i];
    if TildesPaired(s) {
      forall i | 0 <= i < |a| && a[i] == '~' ensures i + 1 < |a| && a[i + 1] in {'0', '1'} { assert s[i] == '~'; }
      forall i | 0 <= i < |b| && b[i] == '~' ensures i + 1 < |b| && b[i + 1] in {'0', '1'} { assert s[|a| + i] == '~'; }
    }
    if TildesPaired(a) && TildesPaired(b) {
      forall i | 0 <= i < |s| && s[i] == '~' ensures i + 1 < |s| && s[i + 1] in {'0', '1'} {
        if i < |a| { assert a[i] == '~'; } else { assert b[i - |a|] == '~'; }
      }
    }
  }

  lemma PairedAfterSlash(s: string)
    requires s != "" && s[0] == '/'
    ensures TildesPaired(s) <==> TildesPaired(s[1..])
  {
    assert s == "/" + s[1..];
    assert forall i | 0 <= i < |s| - 1 :: s[1..][i] == s[i + 1];
    if TildesPaired(s) {
      forall i | 0 <= i < |s[1..]| && s[1..][i] == '~' ensures i + 1 < |s[1..]| && s[1..][i + 1] in {'0', '1'} {
        assert s[i + 1] == '~';
      }
    }
    if TildesPaired(s[1..]) {
      forall i | 0 <= i < |s| && s[i] == '~' ensures i + 1 < |s| && s[i + 1] in {'0', '1'} {
        assert s[1..][i - 1] == '~';
      }
    }
  }

  lemma SplitCases(s: string)
    ensures var n, r := FirstSlash(s), SplitTokens(s);
      && (!TildesPaired(s[..n]) ==> r == Err(ParseError(108)))
      && (TildesPaired(s[..n]) && n == |s| ==> r.Ok?)
      && (TildesPaired(s[..n]) && n < |s| ==>
            var rest := SplitTokens(s[n + 1..]);
            if rest.Ok? then r.Ok? else r == rest)
  {}

  lemma {:induction false} TokensRefused(s: string)
    ensures TildesPaired(s) ==> SplitTokens(s).Ok?
    ensures !TildesPaired(s) ==> SplitTokens(s) == Err(ParseError(108))
    decreases |s|
  {
    var n := FirstSlash(s);
    var token, rest := s[..n], s[n..];
    assert s == token + rest;
    PairedParts(token, rest);
    SplitCases(s);
    if rest != "" {
      PairedAfterSlash(rest);
      assert rest[1..] == s[n + 1..];
      TokensRefused(rest[1..]);
    } else {
      assert TildesPaired(rest);
    }
  }

  /** Which texts the constructor of json_pointer refuses, and how. */
  lemma PointerTextIff(s: string)
    ensures Split(s).Ok? <==> PointerText(s)
    ensures Split(s) == Err(ParseError(107)) <==> s != "" && s[0] != '/'
    ensures Split(s) == Err(ParseError(108)) <==> s != "" && s[0] == '/' && !TildesPaired(s)
  {
    if s != "" && s[0] == '/' {
      PairedAfterSlash(s);
      TokensRefused(s[1..]);
    }
  }

  // ---------- one element ----------

  predicate Has(val: Json, member: string, j: Json) {
    val.Obj? && member in val.o && val.o[member] == j
  }

  predicate HasString(val: Json, member: string) {
    val.Obj? && member in val.o && val.o[member].Str?
  }

  /** The element has the members of the operation, whatever else it has. */
  predicate Says(val: Json, op: Op) {
    match op
    case Add(p, v) => Has(val, "op", Str("add")) && Has(val, "path", Str(ToString(p))) && Has(val, "value", v)
    case Remove(p) => Has(val, "op", Str("remove")) && Has(val, "path", Str(ToString(p)))
    case Replace(p, v) => Has(val, "op", Str("replace")) && Has(val, "path", Str(ToString(p))) && Has(val, "value", v)
    case Move(from, p) =>
      Has(val, "op", Str("move")) && Has(val, "path", Str(ToString(p))) && Has(val, "from", Str(ToString(from)))
    case Copy(from, p) =>
      Has(val, "op", Str("copy")) && Has(val, "path", Str(ToString(p))) && Has(val, "from", Str(ToString(from)))
    case Test(p, v) => Has(val, "op", Str("test")) && Has(val, "path", Str(ToString(p))) && Has(val, "value", v)
  }

  lemma PathText(s: string, p: Path)
    ensures Split(s) == Ok(p) <==> s == ToString(p)
  {
    PointerRoundTrip(p, s);
  }

  /** An element is read as an operation exactly if it has that operation's members. */
  lemma ParseOpIff(val: Json, op: Op)
    ensures ParseOp(val) == Ok(op) <==> Says(val, op)
    ensures Says(val, op) <==>
      val.Obj? && forall k | k in Encode("", op).o :: k in val.o && val.o[k] == Encode("", op).o[k]
  {
    SaysEncoded(val, op);
    if HasString(val, "op") && HasString(val, "path") {
      PathText(val.o["path"].s, op.path);
      if op.Move? || op.Copy? { FromIff(val, op); } else { NoFromIff(val, op); }
    }
  }

  lemma FromIff(val: Json, op: Op)
    requires (op.Move? || op.Copy?) && HasString(val, "op") && HasString(val, "path")
    requires Split(val.o["path"].s) == Ok(op.path) <==> val.o["path"].s == ToString(op.path)
    ensures ParseOp(val) == Ok(op) <==> Says(val, op)
  {
    if HasString(val, "from") { PathText(val.o["from"].s, op.from); }
  }

  lemma NoFromIff(val: Json, op: Op)
    requires !op.Move? && !op.Copy? && HasString(val, "op") && HasString(val, "path")
    requires Split(val.o["path"].s) == Ok(op.path) <==> val.o["path"].s == ToString(op.path)
    ensures ParseOp(val) == Ok(op) <==> Says(val, op)
  {}

  predicate HasMembers(val: Json, members: map<string, Json>) {
    val.Obj? && forall k | k in members :: k in val.o && val.o[k] == members[k]
  }

  lemma TwoMembers(val: Json, a: string, x: Json, b: string, y: Json)
    requires a != b
    ensures HasMembers(val, map[a := x, b := y]) <==> Has(val, a, x) && Has(val, b, y)
  {
    var members := map[a := x, b := y];
    assert a in members && b in members;
  }

  lemma ThreeMembers(val: Json, a: string, x: Json, b: string, y: Json, c: string, z: Json)
    requires a != b && a != c && b != c
    ensures HasMembers(val, map[a := x, b := y, c := z]) <==> Has(val, a, x) && Has(val, b, y) && Has(val, c, z)
  {
    var members := map[a := x, b := y, c := z];
    assert a in members && b in members && c in members;
  }

  lemma SaysEncoded(val: Json, op: Op)
    ensures Says(val, op) <==> HasMembers(val, Encode("", op).o)
  {
    assert "" + ToString(op.path) == ToString(op.path);
    var path := Str(ToString(op.path));
    match op
    case Add(_, v) => ThreeMembers(val, "op", Str("add"), "path", path, "value", v);
    case Remove(_) => TwoMembers(val, "op", Str("remove"), "path", path);
    case Replace(_, v) => ThreeMembers(val, "op", Str("replace"), "path", path, "value", v);
    case Move(from, _) =>
      assert "" + ToString(from) == ToString(from);
      ThreeMembers(val, "op", Str("move"), "from", Str(ToString(from)), "path", path);
    case Copy(from, _) =>
      assert "" + ToString(from) == ToString(from);
      ThreeMembers(val, "op", Str("copy"), "from", Str(ToString(from)), "path", path);
    case Test(_, v) => ThreeMembers(val, "op", Str("test"), "path", path, "value", v);
  }

  /** Every other element is refused: with 104 unless it is an object, with 105 for what its members lack. */
  lemma ElementRefused(val: Json)
    ensures !val.Obj? <==> ParseOp(val) == Err(ParseError(104))
    ensures val.Obj? && !(HasString(val, "op") && HasString(val, "path")) ==> ParseOp(val) == Err(ParseError(105))
    ensures HasString(val, "op") && HasString(val, "path") ==>
      var name, path := val.o["op"].s, val.o["path"].s;
      && (path != "" && path[0] != '/' ==> ParseOp(val) == Err(ParseError(107)))
      && (path != "" && path[0] == '/' && !TildesPaired(path) ==> ParseOp(val) == Err(ParseError(108)))
      && (PointerText(path) ==>
        && (name !in {"add", "remove", "replace", "move", "copy", "test"} ==> ParseOp(val) == Err(ParseError(105)))
        && (name == "remove" ==> ParseOp(val).Ok?)
        && (name in {"add", "replace", "test"} ==>
              if "value" in val.o then ParseOp(val).Ok? else ParseOp(val) == Err(ParseError(105)))
        && (name in {"move", "copy"} ==>
              if !HasString(val, "from") then ParseOp(val) == Err(ParseError(105))
              else
                var from := val.o["from"].s;
                && (from != "" && from[0] != '/' ==> ParseOp(val) == Err(ParseError(107)))
                && (from != "" && from[0] == '/' && !TildesPaired(from) ==> ParseOp(val) == Err(ParseError(108)))
                && (PointerText(from) ==> ParseOp(val).Ok?)))
  {
    if HasString(val, "op") && HasString(val, "path") {
      PointerTextIff(val.o["path"].s);
      if HasString(val, "from") { PointerTextIff(val.o["from"].s); }
    }
  }

  // ---------- whole documents ----------

  /**
   * A patch carries out the operations that its elements say, up to the first exception; the elements are read in
   * turn, so that a refused one matters only once those in front of it have been applied.
   */
  lemma {:induction false} PatchCarriesOut(doc: Json, elements: seq<Json>) returns (ops: seq<Op>)
    ensures |ops| <= |elements| && forall i | 0 <= i < |ops| :: Says(elements[i], ops[i])
    ensures |ops| < |elements| ==> ParseOp(elements[|ops|]).Err?
    ensures PatchSpec(doc, Arr(elements)) ==
      if |ops| == |elements| || ApplyOps(doc, ops).Err? then ApplyOps(doc, ops)
      else Err(ParseOp(elements[|ops|]).error)
    decreases elements
  {
    if elements == [] || ParseOp(elements[0]).Err? {
      ops := [];
    } else {
      var op := ParseOp(elements[0]).value;
      ParseOpIff(elements[0], op);
      var next := ApplyOp(doc, op);
      var rest := PatchCarriesOut(if next.Ok? then next.value else doc, elements[1..]);
      ops := [op] + rest;
      SaysCons(elements, op, rest);
      assert ops[1..] == rest;
    }
  }

  lemma SaysCons(elements: seq<Json>, op: Op, rest: seq<Op>)
    requires elements != [] && |rest| < |elements| && Says(elements[0], op)
    requires forall i | 0 <= i < |rest| :: Says(elements[1..][i], rest[i])
    ensures forall i | 0 <= i < |[op] + rest| :: Says(elements[i], ([op] + rest)[i])
  {
    assert forall i | 1 <= i <= |rest| :: elements[i] == elements[1..][i - 1];
  }

  /** Which documents are patches, and of what: PatchCarriesOut and its converse. */
  lemma PatchSucceedsIff(doc: Json, jsonPatch: Json, result: Json)
    ensures PatchSpec(doc, jsonPatch) == Ok(result) <==>
      jsonPatch.Arr? && exists ops: seq<Op> :: SaysAll(jsonPatch.a, ops) && ApplyOps(doc, ops) == Ok(result)
    ensures !jsonPatch.Arr? ==> PatchSpec(doc, jsonPatch) == Err(ParseError(104))
  {
    if jsonPatch.Arr? {
      var ops := PatchCarriesOut(doc, jsonPatch.a);
      if PatchSpec(doc, jsonPatch) == Ok(result) { assert SaysAll(jsonPatch.a, ops); }
      forall others: seq<Op> | SaysAll(jsonPatch.a, others) ensures others == ops {
        SaidOnce(jsonPatch.a, ops, others);
      }
    }
  }

  predicate SaysAll(elements: seq<Json>, ops: seq<Op>) {
    |ops| == |elements| && forall i | 0 <= i < |ops| :: Says(elements[i], ops[i])
  }

  /** No element says two things. */
  lemma SaidOnce(elements: seq<Json>, ops: seq<Op>, others: seq<Op>)
    requires |ops| <= |elements| && forall i | 0 <= i < |ops| :: Says(elements[i], ops[i])
    requires |ops| < |elements| ==> ParseOp(elements[|ops|]).Err?
    requires SaysAll(elements, others)
    ensures others == ops
  {
    if |ops| < |elements| { ParseOpIff(elements[|ops|], others[|ops|]); }
    forall i | 0 <= i < |ops| ensures ops[i] == others[i] {
      ParseOpIff(elements[i], ops[i]);
      ParseOpIff(elements[i], others[i]);
    }
  }

  /** A refused element behind operations that succeed: its exception is that of the patch, whatever follows. */
  lemma {:induction false} RefusedInPatch(doc: Json, ops: seq<Op>, bad: Json, rest: seq<Json>)
    requires ApplyOps(doc, ops).Ok? && ParseOp(bad).Err?
    ensures PatchSpec(doc, Arr(EncodeAll("", ops) + [bad] + rest)) == Err(ParseOp(bad).error)
    decreases ops
  {
    var elements := EncodeAll("", ops) + [bad] + rest;
    if ops != [] {
      ParseEncoded(ops[0]);
      assert elements[0] == Encode("", ops[0]);
      assert elements[1..] == EncodeAll("", ops[1..]) + [bad] + rest;
      RefusedInPatch(ApplyOp(doc, ops[0]).value, ops[1..], bad, rest);
    }
  }
}
