/** basic_json::patch: JSON Patch (RFC 6902) as the source applies it. */
module JsonPatch {
  import opened Results
  import opened Json
  import opened JsonPointer

  type Path = seq<string>

  /** One decoded operation of a patch document. */
  datatype Op =
    | Add(path: Path, value: Json)
    | Remove(path: Path)
    | Replace(path: Path, value: Json)
    | Move(from: Path, path: Path)
    | Copy(from: Path, path: Path)
    | Test(path: Path, value: Json)

  // ---------- navigation ----------

  /** The index step of get_checked. */
  function CheckedIndex(token: string, size: nat): (r: Result<nat>)
    ensures r.Ok? ==> r.value < size
  {
    if token == "-" then Err(OutOfRange(402))
    else if |token| > 1 && token[0] == '0' then Err(ParseError(106))
    else
      match ArrayIndex(token)
      case Err(StdInvalidArgument) => Err(ParseError(109))
      case Err(e) => Err(e)
      case Ok(i) => if 0 <= i < size then Ok(i) else Err(OutOfRange(401))
  }

  /** The documented outcomes for numerals, for "-", for leading zeros, and for what is not a number. */
  lemma CheckedIndexOutcomes(token: string, n: nat, size: nat)
    ensures CheckedIndex(Numeral(n), size) ==
      if n > INT_MAX then Err(StdOutOfRange) else if n < size then Ok(n) else Err(OutOfRange(401))
    ensures CheckedIndex("-", size) == Err(OutOfRange(402))
    ensures CheckedIndex("0" + Numeral(n), size) == Err(ParseError(106))
    ensures token != "-" && (forall c | c in token :: !IsDigit(c)) ==> CheckedIndex(token, size) == Err(ParseError(109))
  {
    ArrayIndexOfNumeral(n);
    assert IsDigit(Numeral(n)[0]);
    if token != "-" && forall c | c in token :: !IsDigit(c) { NoDigitsNoIndex(token); }
  }

  lemma NoDigitsNoIndex(token: string)
    requires forall c | c in token :: !IsDigit(c)
    ensures ArrayIndex(token) == Err(StdInvalidArgument) && !(|token| > 1 && token[0] == '0')
  {
    var start := CountSpaces(token) +
      if CountSpaces(token) < |token| && token[CountSpaces(token)] in {'-', '+'} then 1 else 0;
    assert start < |token| ==> token[start..][0] in token;
  }

  /** at(ptr) */
  function At(doc: Json, p: Path): Result<Json> {
    if p == [] then Ok(doc) else
      match doc
      case Obj(o) => if p[0] in o then At(o[p[0]], p[1..]) else Err(OutOfRange(403))
      case Arr(a) =>
        var i :- CheckedIndex(p[0], |a|);
        At(a[i], p[1..])
      case _ => Err(OutOfRange(404))
  }

  /** What is done through the reference that navigation returns. */
  datatype Edit = SetTo(v: Json) | AddChild(key: string, child: Json) | RemoveChild(gone: string)

  function Insert<T>(s: seq<T>, i: nat, x: T): seq<T>
    requires i <= |s|
  {
    s[..i] + [x] + s[i..]
  }

  function Erase<T>(s: seq<T>, i: nat): seq<T>
    requires i < |s|
  {
    s[..i] + s[i + 1..]
  }

  lemma Assoc<T>(a: seq<T>, b: seq<T>, c: seq<T>)
    ensures (a + b) + c == a + (b + c)
  {}

  /** The switch over the parent's type in operation_add and operation_remove, and plain assignment. */
  function ApplyEdit(j: Json, e: Edit): Result<Json> {
    match e
    case SetTo(v) => Ok(v)
    case AddChild(key, v) =>
      (match j
       case Null => Ok(Obj(map[key := v]))
       case Obj(o) => Ok(Obj(o[key := v]))
       case Arr(a) =>
         if key == "-" then Ok(Arr(a + [v])) else
           var i :- ArrayIndex(key);
           if 0 <= i <= |a| then Ok(Arr(Insert(a, i, v))) else Err(OutOfRange(401))
       case _ => Err(AssertionFailed))
    case RemoveChild(key) =>
      match j
      case Obj(o) => if key in o then Ok(Obj(o - {key})) else Err(OutOfRange(403))
      case Arr(a) =>
        var i :- ArrayIndex(key);
        if 0 <= i < |a| then Ok(Arr(Erase(a, i))) else Err(OutOfRange(401))
      case _ => Ok(j)
  }

  /** An edit through the reference returned by at(p). */
  function EditAt(doc: Json, p: Path, e: Edit): Result<Json> {
    if p == [] then ApplyEdit(doc, e) else
      match doc
      case Obj(o) =>
        if p[0] !in o then Err(OutOfRange(403)) else
          var child :- EditAt(o[p[0]], p[1..], e);
          Ok(Obj(o[p[0] := child]))
      case Arr(a) =>
        var i :- CheckedIndex(p[0], |a|);
        var child :- EditAt(a[i], p[1..], e);
        Ok(Arr(a[i := child]))
      case _ => Err(OutOfRange(404))
  }

  /**
   * The index step of get_unchecked: past the end is allowed, and "-" means the end. A negative number becomes an
   * enormous size_type there, for which the array cannot be filled up.
   */
  function CreatingIndex(token: string, size: nat): Result<nat> {
    if |token| > 1 && token[0] == '0' then Err(ParseError(106))
    else if token == "-" then Ok(size)
    else
      match ArrayIndex(token)
      case Err(StdInvalidArgument) => Err(ParseError(109))
      case Err(e) => Err(e)
      case Ok(i) => if 0 <= i then Ok(i) else Err(StdOutOfRange)
  }

  /** operator[](size_type) on an array: filled up with nulls. */
  function Grown(a: seq<Json>, i: nat): (g: seq<Json>)
    ensures i < |g| && a <= g
  {
    if i < |a| then a else a + seq(i + 1 - |a|, _ => Null)
  }

  predicate NamesArray(token: string) {
    token == "-" || forall c | c in token :: IsDigit(c)
  }

  /** get_unchecked turns a null it has to step into into an empty container. */
  function Container(j: Json, token: string): Json {
    if !j.Null? then j else if NamesArray(token) then Arr([]) else Obj(map[])
  }

  /** An edit through the reference returned by operator[](p), which creates what is missing on the way. */
  function EditCreating(doc: Json, p: Path, e: Edit): Result<Json>
    decreases |p|
  {
    if p == [] then ApplyEdit(doc, e) else
      match Container(doc, p[0])
      case Obj(o) =>
        var child :- EditCreating(if p[0] in o then o[p[0]] else Null, p[1..], e);
        Ok(Obj(o[p[0] := child]))
      case Arr(a) =>
        var i :- CreatingIndex(p[0], |a|);
        var g := Grown(a, i);
        var child :- EditCreating(g[i], p[1..], e);
        Ok(Arr(g[i := child]))
      case _ => Err(OutOfRange(404))
  }

  // ---------- operations ----------

  function Front(p: Path): Path
    requires p != []
  {
    p[..|p| - 1]
  }

  function Last(p: Path): string
    requires p != []
  {
    p[|p| - 1]
  }

  /** Only the first token is looked up with at; the rest of the way to the parent is created when missing. */
  function OperationAdd(doc: Json, p: Path, v: Json): Result<Json> {
    if p == [] then Ok(v) else
      var _ :- if |p| > 1 then At(doc, p[..1]) else Ok(doc);
      EditCreating(doc, Front(p), AddChild(Last(p), v))
  }

  function OperationRemove(doc: Json, p: Path): Result<Json> {
    if p == [] then Err(OutOfRange(405))
    else EditAt(doc, Front(p), RemoveChild(Last(p)))
  }

  function ApplyOp(doc: Json, op: Op): Result<Json> {
    match op
    case Add(p, v) => OperationAdd(doc, p, v)
    case Remove(p) => OperationRemove(doc, p)
    case Replace(p, v) => EditAt(doc, p, SetTo(v))
    case Move(from, p) =>
      var v :- At(doc, from);
      var rest :- OperationRemove(doc, from);
      OperationAdd(rest, p, v)
    case Copy(from, p) =>
      var v :- At(doc, from);
      OperationAdd(doc, p, v)
    case Test(p, v) =>
      match At(doc, p)
      case Ok(found) => if JsonEq(found, v) then Ok(doc) else Err(OtherError(501))
      case Err(OutOfRange(_)) => Err(OtherError(501))
      case Err(e) => Err(e)
  }

  function ApplyOps(doc: Json, ops: seq<Op>): Result<Json>
    decreases ops
  {
    if ops == [] then Ok(doc) else
      var next :- ApplyOp(doc, ops[0]);
      ApplyOps(next, ops[1..])
  }

  /** With a path of one token the parent is the document itself. */
  lemma EditOfRoot(doc: Json, token: string, v: Json)
    ensures OperationAdd(doc, [token], v) == ApplyEdit(doc, AddChild(token, v))
    ensures OperationRemove(doc, [token]) == ApplyEdit(doc, RemoveChild(token))
  {
    assert Front([token]) == [] && Last([token]) == token;
  }

  // ---------- patch documents ----------

  function GetValue(val: map<string, Json>, member: string): Result<Json> {
    if member in val then Ok(val[member]) else Err(ParseError(105))
  }

  function GetString(val: map<string, Json>, member: string): Result<string> {
    var j :- GetValue(val, member);
    if j.Str? then Ok(j.s) else Err(ParseError(105))
  }

  /** The mandatory members of one element, in the order in which the source asks for them. */
  function ParseOp(val: Json): Result<Op> {
    if !val.Obj? then Err(ParseError(104)) else
      var op :- GetString(val.o, "op");
      var path :- GetString(val.o, "path");
      var ptr :- Split(path);
      if op == "add" then
        var v :- GetValue(val.o, "value");
        Ok(Add(ptr, v))
      else if op == "remove" then Ok(Remove(ptr))
      else if op == "replace" then
        var v :- GetValue(val.o, "value");
        Ok(Replace(ptr, v))
      else if op == "move" then
        var text :- GetString(val.o, "from");
        var from :- Split(text);
        Ok(Move(from, ptr))
      else if op == "copy" then
        var text :- GetString(val.o, "from");
        var from :- Split(text);
        Ok(Copy(from, ptr))
      else if op == "test" then
        var v :- GetValue(val.o, "value");
        Ok(Test(ptr, v))
      else Err(ParseError(105))
  }

  function PatchElements(doc: Json, elements: seq<Json>): Result<Json>
    decreases elements
  {
    if elements == [] then Ok(doc) else
      var op :- ParseOp(elements[0]);
      var next :- ApplyOp(doc, op);
      PatchElements(next, elements[1..])
  }

  function PatchSpec(doc: Json, jsonPatch: Json): Result<Json> {
    if jsonPatch.Arr? then PatchElements(doc, jsonPatch.a) else Err(ParseError(104))
  }

  /** The switch over the operations. */
  method Execute(doc: Json, op: Op) returns (r: Result<Json>)
    ensures r == ApplyOp(doc, op)
  {
    var result := doc;
    match op {
      case Add(ptr, v) => r := OperationAdd(result, ptr, v);
      case Remove(ptr) => r := OperationRemove(result, ptr);
      case Replace(ptr, v) => r := EditAt(result, ptr, SetTo(v));
      case Move(from, ptr) =>
        var v :- At(result, from);
        result :- OperationRemove(result, from);
        r := OperationAdd(result, ptr, v);
      case Copy(from, ptr) =>
        var v :- At(result, from);
        r := OperationAdd(result, ptr, v);
      case Test(ptr, v) =>
        var success := false;
        var found := At(result, ptr);
        if found.Ok? {
          success := JsonEq(found.value, v);
        } else if !found.error.OutOfRange? {
          return found;
        }
        r := if success then Ok(result) else Err(OtherError(501));
    }
  }

  /** patch: the loop over the operations, on a working copy. */
  method Patch(doc: Json, jsonPatch: Json) returns (r: Result<Json>)
    ensures r == PatchSpec(doc, jsonPatch)
  {
    var result := doc;
    if !jsonPatch.Arr? { return Err(ParseError(104)); }
    var n := 0;
    while n < |jsonPatch.a|
      invariant 0 <= n <= |jsonPatch.a|
      invariant PatchElements(doc, jsonPatch.a) == PatchElements(result, jsonPatch.a[n..])
    {
      assert jsonPatch.a[n..][1..] == jsonPatch.a[n + 1..];
      var op :- ParseOp(jsonPatch.a[n]);
      var next := Execute(result, op);
      result :- next;
      n := n + 1;
    }
    return Ok(result);
  }
}
