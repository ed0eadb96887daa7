/** The exceptions of patch, by what is found at the location that an operation names; and what add creates. */
module PatchFailures {
  import opened Results
  import opened Json
  import opened JsonPointer
  import opened JsonPatch
  import opened PatchLifting
  import opened PatchLaws

  // ---------- indices ----------

  function StoiValue(sign: string, digits: string): int
    requires AllDigits(digits)
  {
    if sign == "-" then 0 - DigitsValue(digits) else DigitsValue(digits)
  }

  predicate IsInt(n: int) {
    -0x8000_0000 <= n <= 0x7FFF_FFFF
  }

  /** The index steps of both kinds of navigation, for every token other than "-" and those with leading zeros. */
  lemma IndexByParts(token: string, size: nat, spaces: string, sign: string, digits: string, rest: string)
    requires token != "-" && !(|token| > 1 && token[0] == '0') && StoiParts(token, spaces, sign, digits, rest)
    ensures digits == "" ==> CheckedIndex(token, size) == CreatingIndex(token, size) == Err(ParseError(109))
    ensures digits != "" ==>
      var n := StoiValue(sign, digits);
      && (!IsInt(n) ==> CheckedIndex(token, size) == CreatingIndex(token, size) == Err(StdOutOfRange))
      && (IsInt(n) && rest != "" ==> CheckedIndex(token, size) == CreatingIndex(token, size) == Err(OutOfRange(404)))
      && (IsInt(n) && rest == "" ==>
            && CheckedIndex(token, size) == (if 0 <= n < size then Ok(n) else Err(OutOfRange(401)))
            && CreatingIndex(token, size) == if 0 <= n then Ok(n) else Err(StdOutOfRange))
  {
    ArrayIndexByParts(token, spaces, sign, digits, rest);
  }

  /** A number that is followed by something else, as in "1x". */
  lemma NumberThenText(n: nat, c: char, text: string, size: nat)
    requires n <= 0x7FFF_FFFF && !('0' <= c <= '9')
    ensures var token := Numeral(n) + ([c] + text);
      && ArrayIndex(token) == Err(OutOfRange(404))
      && ((n > 0 || |token| == 1) ==> CheckedIndex(token, size) == CreatingIndex(token, size) == Err(OutOfRange(404)))
  {
    var digits, rest := Numeral(n), [c] + text;
    var token := digits + rest;
    NumeralValue(n);
    assert token == "" + ("" + (digits + rest));
    ArrayIndexByParts(token, "", "", digits, rest);
    assert token[0] == digits[0] && IsDigit(digits[0]);
  }

  /** "-" is past the end: an error for at, the next index for the creating operator[]; leading zeros are errors. */
  lemma SpecialTokens(token: string, size: nat)
    ensures CheckedIndex("-", size) == Err(OutOfRange(402)) && CreatingIndex("-", size) == Ok(size)
    ensures |token| > 1 && token[0] == '0' ==>
      CheckedIndex(token, size) == CreatingIndex(token, size) == Err(ParseError(106))
  {}

  // ---------- locations ----------

  /** What keeps the step with a token into a value from being made, as an exception. */
  function Obstacle(j: Json, token: string): Option<Error> {
    match j
    case Obj(o) => if token in o then None else Some(OutOfRange(403))
    case Arr(a) => if CheckedIndex(token, |a|).Err? then Some(CheckedIndex(token, |a|).error) else None
    case _ => Some(OutOfRange(404))
  }

  /** A lookup that fails does so at a first obstacle. */
  lemma {:induction false} FirstObstacle(doc: Json, p: Path) returns (n: nat)
    requires At(doc, p).Err?
    ensures n < |p| && At(doc, p[..n]).Ok? && Obstacle(At(doc, p[..n]).value, p[n]) == Some(At(doc, p).error)
  {
    if Obstacle(doc, p[0]).Some? {
      n := 0;
    } else {
      var child := if doc.Obj? then doc.o[p[0]] else doc.a[CheckedIndex(p[0], |doc.a|).value];
      var m := FirstObstacle(child, p[1..]);
      n := m + 1;
      assert p[..n] == [p[0]] + p[1..][..m];
      assert ([p[0]] + p[1..][..m])[1..] == p[1..][..m];
    }
  }

  /**
   * The converse, for the operations: behind an obstacle nothing is found, and replace, move, copy and remove throw
   * the exception for the obstacle; test reports every out_of_range as other_error.501 and passes the others on.
   */
  lemma BehindObstacle(doc: Json, q: Path, token: string, rest: Path, to: Path, v: Json)
    requires At(doc, q).Ok? && Obstacle(At(doc, q).value, token).Some?
    ensures var p, e := q + ([token] + rest), Obstacle(At(doc, q).value, token).value;
      && At(doc, p) == Err(e)
      && ApplyOp(doc, Replace(p, v)) == Err(e)
      && ApplyOp(doc, Move(p, to)) == Err(e)
      && ApplyOp(doc, Copy(p, to)) == Err(e)
      && (rest != [] ==> ApplyOp(doc, Remove(p)) == Err(e))
      && ApplyOp(doc, Test(p, v)) == Err(if e.OutOfRange? then OtherError(501) else e)
  {
    EditBehindObstacle(doc, q, token, rest, SetTo(v));
    if rest != [] {
      var p := q + ([token] + rest);
      assert Front(p) == q + ([token] + Front(rest));
      EditBehindObstacle(doc, q, token, Front(rest), RemoveChild(Last(p)));
    }
  }

  lemma EditBehindObstacle(doc: Json, q: Path, token: string, rest: Path, e: Edit)
    requires At(doc, q).Ok? && Obstacle(At(doc, q).value, token).Some?
    ensures var p, error := q + ([token] + rest), Err(Obstacle(At(doc, q).value, token).value);
      At(doc, p) == EditAt(doc, p, e) == error
  {
    AtPrefix(doc, q, [token] + rest);
    EditAtPrefix(doc, q, [token] + rest, e);
  }

  /** A test is passed on to nothing: the document stays as it is, or other_error.501 is thrown. */
  lemma TestOutcome(doc: Json, p: Path, v: Json)
    requires At(doc, p).Ok?
    ensures ApplyOp(doc, Test(p, v)) == if JsonEq(At(doc, p).value, v) then Ok(doc) else Err(OtherError(501))
  {}

  // ---------- the place in the parent ----------

  /** remove of a member, and of the root. */
  lemma RemoveMemberOutcome(doc: Json, q: Path, o: map<string, Json>, token: string)
    requires At(doc, q) == Ok(Obj(o))
    ensures ApplyOp(doc, Remove(q + [token])) ==
      if token in o then Ok(Put(doc, q, Obj(o - {token}))) else Err(OutOfRange(403))
    ensures ApplyOp(doc, Remove([])) == Err(OutOfRange(405))
  {
    RemoveFrom(doc, q, token);
  }

  /** remove of an element, with the token a numeral or anything else. */
  lemma RemoveElementOutcome(doc: Json, q: Path, a: seq<Json>, n: nat, token: string)
    requires At(doc, q) == Ok(Arr(a))
    ensures ApplyOp(doc, Remove(q + [Numeral(n)])) ==
      if n > 0x7FFF_FFFF then Err(StdOutOfRange)
      else if n < |a| then Ok(Put(doc, q, Arr(a[..n] + a[n + 1..]))) else Err(OutOfRange(401))
    ensures ArrayIndex(token).Err? ==> ApplyOp(doc, Remove(q + [token])) == Err(ArrayIndex(token).error)
  {
    RemoveNumeral(doc, q, a, n);
    RemoveFrom(doc, q, token);
  }

  lemma RemoveNumeral(doc: Json, q: Path, a: seq<Json>, n: nat)
    requires At(doc, q) == Ok(Arr(a))
    ensures ApplyOp(doc, Remove(q + [Numeral(n)])) ==
      if n > 0x7FFF_FFFF then Err(StdOutOfRange)
      else if n < |a| then Ok(Put(doc, q, Arr(a[..n] + a[n + 1..]))) else Err(OutOfRange(401))
  {
    RemoveFrom(doc, q, Numeral(n));
    EraseAtNumeral(a, n);
  }

  lemma EraseAtNumeral(a: seq<Json>, n: nat)
    ensures ApplyEdit(Arr(a), RemoveChild(Numeral(n))) ==
      if n > 0x7FFF_FFFF then Err(StdOutOfRange)
      else if n < |a| then Ok(Arr(a[..n] + a[n + 1..])) else Err(OutOfRange(401))
  {
    ArrayIndexOfNumeral(n);
  }

  lemma RemoveFrom(doc: Json, q: Path, token: string)
    requires At(doc, q).Ok?
    ensures ApplyOp(doc, Remove(q + [token])) == Placed(doc, q, ApplyEdit(At(doc, q).value, RemoveChild(token)))
  {
    var p := q + [token];
    assert Front(p) == q && Last(p) == token;
    RemoveUnderExistingParent(doc, p);
  }

  /** add, where the parent is no array: null becomes an object, and another scalar fails the assertion. */
  lemma AddMemberOutcome(doc: Json, q: Path, token: string, v: Json)
    requires At(doc, q).Ok? && !At(doc, q).value.Arr?
    ensures var x := At(doc, q).value;
      && (x.Null? ==> ApplyOp(doc, Add(q + [token], v)) == Ok(Put(doc, q, Obj(map[token := v]))))
      && (x.Obj? ==> ApplyOp(doc, Add(q + [token], v)) == Ok(Put(doc, q, Obj(x.o[token := v]))))
      && (!x.Null? && !x.Obj? ==> ApplyOp(doc, Add(q + [token], v)) == Err(AssertionFailed))
    ensures ApplyOp(doc, Add([], v)) == Ok(v)
  {
    AddTo(doc, q, token, v);
  }

  /** add to an array: at the end, in front of an element, or past the end. */
  lemma AddElementOutcome(doc: Json, q: Path, a: seq<Json>, n: nat, token: string, v: Json)
    requires At(doc, q) == Ok(Arr(a))
    ensures ApplyOp(doc, Add(q + ["-"], v)) == Ok(Put(doc, q, Arr(a + [v])))
    ensures ApplyOp(doc, Add(q + [Numeral(n)], v)) ==
      if n > 0x7FFF_FFFF then Err(StdOutOfRange)
      else if n <= |a| then Ok(Put(doc, q, Arr(a[..n] + [v] + a[n..]))) else Err(OutOfRange(401))
    ensures token != "-" && ArrayIndex(token).Err? ==> ApplyOp(doc, Add(q + [token], v)) == Err(ArrayIndex(token).error)
  {
    AddTo(doc, q, token, v);
    AddTo(doc, q, "-", v);
    AddNumeral(doc, q, a, n, v);
  }

  lemma AddNumeral(doc: Json, q: Path, a: seq<Json>, n: nat, v: Json)
    requires At(doc, q) == Ok(Arr(a))
    ensures ApplyOp(doc, Add(q + [Numeral(n)], v)) ==
      if n > 0x7FFF_FFFF then Err(StdOutOfRange)
      else if n <= |a| then Ok(Put(doc, q, Arr(a[..n] + [v] + a[n..]))) else Err(OutOfRange(401))
  {
    AddTo(doc, q, Numeral(n), v);
    InsertAtNumeral(a, n, v);
  }

  lemma InsertAtNumeral(a: seq<Json>, n: nat, v: Json)
    ensures ApplyEdit(Arr(a), AddChild(Numeral(n), v)) ==
      if n > 0x7FFF_FFFF then Err(StdOutOfRange)
      else if n <= |a| then Ok(Arr(a[..n] + [v] + a[n..])) else Err(OutOfRange(401))
  {
    ArrayIndexOfNumeral(n);
    assert IsDigit(Numeral(n)[0]);
  }

  lemma AddTo(doc: Json, q: Path, token: string, v: Json)
    requires At(doc, q).Ok?
    ensures ApplyOp(doc, Add(q + [token], v)) == Placed(doc, q, ApplyEdit(At(doc, q).value, AddChild(token, v)))
  {
    var p := q + [token];
    assert Front(p) == q && Last(p) == token;
    AddUnderExistingParent(doc, p, v);
  }

  // ---------- parents that add creates ----------

  /** Of the way to the parent only the first step has to exist. */
  lemma AddNeedsFirstStep(doc: Json, p: Path, v: Json)
    requires |p| > 1 && Obstacle(doc, p[0]).Some?
    ensures ApplyOp(doc, Add(p, v)) == Err(Obstacle(doc, p[0]).value)
  {
    assert p[..1][0] == p[0];
  }

  function Nulls(n: nat): (r: seq<Json>)
    ensures |r| == n && forall i | 0 <= i < n :: r[i] == Null
  {
    seq(n, _ => Null)
  }

  lemma CreatedUnder(doc: Json, q: Path, token: string, key: string, v: Json)
    requires q != [] && At(doc, q).Ok?
    ensures ApplyOp(doc, Add(q + [token, key], v)) ==
      Placed(doc, q, EditCreating(At(doc, q).value, [token], AddChild(key, v)))
  {
    var p := q + [token, key];
    assert Front(p) == q + [token] && Last(p) == key && p[..1] == [q[0]];
    FirstStepExists(doc, q);
    EditCreatingPrefix(doc, q, [token], AddChild(key, v));
  }

  lemma CreatingStep(x: Json, token: string, key: string, v: Json)
    ensures EditCreating(Null, [], AddChild(key, v)) == Ok(Obj(map[key := v]))
    ensures x.Null? && !NamesArray(token) ==>
      EditCreating(x, [token], AddChild(key, v)) == Ok(Obj(map[token := Obj(map[key := v])]))
    ensures (x.Null? && NamesArray(token)) || x.Arr? ==>
      var a := if x.Arr? then x.a else [];
      var i := CreatingIndex(token, |a|);
      && (i.Err? ==> EditCreating(x, [token], AddChild(key, v)) == Err(i.error))
      && (i.Ok? && i.value >= |a| ==>
            EditCreating(x, [token], AddChild(key, v)) == Ok(Arr(a + Nulls(i.value - |a|) + [Obj(map[key := v])])))
  {
    assert [token][1..] == [];
    assert EditCreating(Null, [token][1..], AddChild(key, v)) == Ok(Obj(map[key := v]));
    if (x.Null? && NamesArray(token)) || x.Arr? {
      var a := if x.Arr? then x.a else [];
      var i := CreatingIndex(token, |a|);
      if i.Ok? && i.value >= |a| {
        var g := Grown(a, i.value);
        assert g[i.value := Obj(map[key := v])] == a + Nulls(i.value - |a|) + [Obj(map[key := v])];
      }
    }
  }

  /** An add with two steps below a null: "-" and a numeral make it an array of nulls and one object. */
  lemma AddBelowNull(doc: Json, q: Path, n: nat, key: string, v: Json)
    requires q != [] && At(doc, q) == Ok(Null)
    ensures ApplyOp(doc, Add(q + ["-", key], v)) == Ok(Put(doc, q, Arr([Obj(map[key := v])])))
    ensures ApplyOp(doc, Add(q + [Numeral(n), key], v)) ==
      if n > 0x7FFF_FFFF then Err(StdOutOfRange) else Ok(Put(doc, q, Arr(Nulls(n) + [Obj(map[key := v])])))
  {
    BelowNull(doc, q, Numeral(n), key, v);
    CreatingIndexOfNumeral(n, 0);
    BelowNull(doc, q, "-", key, v);
    assert Nulls(0) + [Obj(map[key := v])] == [Obj(map[key := v])];
  }

  lemma CreatingIndexOfNumeral(n: nat, size: nat)
    ensures CreatingIndex(Numeral(n), size) == if n > 0x7FFF_FFFF then Err(StdOutOfRange) else Ok(n)
    ensures Numeral(n) != "-" && AllDigits(Numeral(n))
  {
    ArrayIndexOfNumeral(n);
    assert IsDigit(Numeral(n)[0]);
  }

  /** Any other key makes it an object; the empty key and superfluous zeros make it an array, too, and are refused. */
  lemma AddBelowNullOtherwise(doc: Json, q: Path, n: nat, k: string, key: string, v: Json)
    requires q != [] && At(doc, q) == Ok(Null)
    ensures k != "-" && !AllDigits(k) ==>
      ApplyOp(doc, Add(q + [k, key], v)) == Ok(Put(doc, q, Obj(map[k := Obj(map[key := v])])))
    ensures ApplyOp(doc, Add(q + ["", key], v)) == Err(ParseError(109))
    ensures ApplyOp(doc, Add(q + ["0" + Numeral(n), key], v)) == Err(ParseError(106))
  {
    BelowNull(doc, q, k, key, v);
    BelowNull(doc, q, "", key, v);
    assert ArrayIndex("") == Err(StdInvalidArgument);
    BelowNull(doc, q, "0" + Numeral(n), key, v);
  }

  lemma BelowNull(doc: Json, q: Path, token: string, key: string, v: Json)
    requires q != [] && At(doc, q) == Ok(Null)
    ensures token != "-" && !AllDigits(token) ==>
      ApplyOp(doc, Add(q + [token, key], v)) == Ok(Put(doc, q, Obj(map[token := Obj(map[key := v])])))
    ensures token == "-" || AllDigits(token) ==>
      var i := CreatingIndex(token, 0);
      ApplyOp(doc, Add(q + [token, key], v)) ==
        if i.Err? then Err(i.error) else Ok(Put(doc, q, Arr(Nulls(i.value) + [Obj(map[key := v])])))
  {
    CreatedUnder(doc, q, token, key, v);
    CreatingStep(Null, token, key, v);
    NamesArrayIff(token);
    if (token == "-" || AllDigits(token)) && CreatingIndex(token, 0).Ok? {
      assert [] + Nulls(CreatingIndex(token, 0).value - 0) == Nulls(CreatingIndex(token, 0).value);
    }
  }

  lemma NamesArrayIff(token: string)
    ensures NamesArray(token) <==> token == "-" || AllDigits(token)
  {
    if NamesArray(token) && token != "-" {
      forall i | 0 <= i < |token| ensures '0' <= token[i] <= '9' { assert token[i] in token; }
    }
    if AllDigits(token) {
      forall c | c in token ensures IsDigit(c) { var i :| 0 <= i < |token| && token[i] == c; }
    }
  }

  /** An array on the way is filled up with nulls, so that the named element is its last. */
  lemma AddBelowArray(doc: Json, q: Path, a: seq<Json>, n: nat, key: string, v: Json)
    requires q != [] && At(doc, q) == Ok(Arr(a)) && |a| <= n <= 0x7FFF_FFFF
    ensures ApplyOp(doc, Add(q + [Numeral(n), key], v)) ==
      Ok(Put(doc, q, Arr(a + Nulls(n - |a|) + [Obj(map[key := v])])))
  {
    CreatingIndexOfNumeral(n, |a|);
    CreatedUnder(doc, q, Numeral(n), key, v);
    CreatingStep(Arr(a), Numeral(n), key, v);
  }

  lemma AddBelowArrayEnd(doc: Json, q: Path, a: seq<Json>, key: string, v: Json)
    requires q != [] && At(doc, q) == Ok(Arr(a))
    ensures ApplyOp(doc, Add(q + ["-", key], v)) == Ok(Put(doc, q, Arr(a + [Obj(map[key := v])])))
  {
    CreatedUnder(doc, q, "-", key, v);
    CreatingStep(Arr(a), "-", key, v);
    assert a + Nulls(0) == a;
  }
}
