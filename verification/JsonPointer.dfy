/** JSON pointers (RFC 6901): their string form and the numerals that name array elements. */
module JsonPointer {
  import opened Results

  // ---------- escaping ----------

  /** replace_substring: left to right, without overlaps, not looking again at what was inserted. */
  function ReplaceSubstring(s: string, f: string, t: string): string
    requires f != ""
  {
    if |s| < |f| then s
    else if f <= s then t + ReplaceSubstring(s[|f|..], f, t)
    else [s[0]] + ReplaceSubstring(s[1..], f, t)
  }

  function Escape(s: string): string {
    ReplaceSubstring(ReplaceSubstring(s, "~", "~0"), "/", "~1")
  }

  function Unescape(s: string): string {
    ReplaceSubstring(ReplaceSubstring(s, "~1", "/"), "~0", "~")
  }

  /** What two successive replacements of single characters amount to. */
  function EscapeChars(s: string): string {
    if s == "" then ""
    else (if s[0] == '~' then "~0" else if s[0] == '/' then "~1" else [s[0]]) + EscapeChars(s[1..])
  }

  lemma {:induction false} ReplaceAppend(a: string, b: string, f: char, t: string)
    ensures ReplaceSubstring(a + b, [f], t) == ReplaceSubstring(a, [f], t) + ReplaceSubstring(b, [f], t)
  {
    if a == "" {
      assert a + b == b;
    } else {
      assert (a + b)[1..] == a[1..] + b;
      ReplaceAppend(a[1..], b, f, t);
    }
  }

  lemma ReplaceInOne(c: char, f: char, t: string)
    ensures ReplaceSubstring([c], [f], t) == if c == f then t else [c]
  {
    var one := [c];
    assert one[1..] == "" && ReplaceSubstring("", [f], t) == "";
    if c == f {
      assert [f] <= one;
      assert ReplaceSubstring(one, [f], t) == t + "" == t;
    } else {
      assert one[0] != [f][0];
      assert ReplaceSubstring(one, [f], t) == [c] + "" == one;
    }
  }

  lemma ReplaceCons(c: char, s: string, f: char, t: string)
    ensures ReplaceSubstring([c] + s, [f], t) == (if c == f then t else [c]) + ReplaceSubstring(s, [f], t)
  {
    ReplaceAppend([c], s, f, t);
    ReplaceInOne(c, f, t);
  }

  lemma {:induction false} EscapeIsEscapeChars(s: string)
    ensures Escape(s) == EscapeChars(s)
  {
    if s != "" {
      var c, rest := s[0], ReplaceSubstring(s[1..], "~", "~0");
      assert s == [c] + s[1..];
      ReplaceCons(c, s[1..], '~', "~0");
      EscapeIsEscapeChars(s[1..]);
      if c == '~' {
        assert "~0" + rest == ['~'] + (['0'] + rest);
        ReplaceCons('0', rest, '/', "~1");
        ReplaceCons('~', ['0'] + rest, '/', "~1");
      } else {
        ReplaceCons(c, rest, '/', "~1");
      }
    }
  }

  /** The inverse of EscapeChars, reading one escape sequence or one character at a time. */
  function UnescapeChars(s: string): string
    requires TildesPaired(s)
  {
    if s == "" then ""
    else if s[0] == '~' then [if s[1] == '0' then '~' else '/'] + UnescapeChars(s[2..])
    else [s[0]] + UnescapeChars(s[1..])
  }

  /** Every tilde is followed by 0 or 1. */
  predicate TildesPaired(s: string) {
    forall i | 0 <= i < |s| && s[i] == '~' :: i + 1 < |s| && (s[i + 1] == '0' || s[i + 1] == '1')
  }

  lemma {:induction false} UnescapeEscapeChars(s: string)
    ensures Unescape(EscapeChars(s)) == s
  {
    SlashesRestored(s);
    TildesRestored(s);
  }

  /** The intermediate string of Unescape. */
  function EscapeTildes(s: string): string {
    if s == "" then "" else (if s[0] == '~' then "~0" else [s[0]]) + EscapeTildes(s[1..])
  }

  lemma {:induction false} SlashesRestored(s: string)
    ensures ReplaceSubstring(EscapeChars(s), "~1", "/") == EscapeTildes(s)
  {
    if s != "" {
      SlashesRestored(s[1..]);
      var e, rest := EscapeChars(s), EscapeChars(s[1..]);
      if s[0] == '~' {
        assert e[1..] == "0" + rest && e[1..][1..] == rest;
        assert e[1..][0] == '0';
        assert ReplaceSubstring(e[1..], "~1", "/") == "0" + ReplaceSubstring(rest, "~1", "/");
      } else if s[0] == '/' {
        assert e[2..] == rest;
      } else {
        assert e[1..] == rest;
      }
    }
  }

  lemma {:induction false} TildesRestored(s: string)
    ensures ReplaceSubstring(EscapeTildes(s), "~0", "~") == s
  {
    if s != "" {
      TildesRestored(s[1..]);
      var e, rest := EscapeTildes(s), EscapeTildes(s[1..]);
      if s[0] == '~' {
        assert e[2..] == rest;
      } else {
        assert e[1..] == rest;
      }
      assert s == [s[0]] + s[1..];
    }
  }

  lemma {:induction false} EscapeCharsShape(s: string)
    ensures '/' !in EscapeChars(s) && TildesPaired(EscapeChars(s))
  {
    if s != "" {
      EscapeCharsShape(s[1..]);
      var e, rest := EscapeChars(s), EscapeChars(s[1..]);
      forall i | 0 <= i < |e| && e[i] == '~' ensures i + 1 < |e| && (e[i + 1] == '0' || e[i + 1] == '1') {
        var skip := |e| - |rest|;
        if i >= skip { assert rest[i - skip] == '~'; }
      }
    }
  }

  lemma {:induction false} EscapeUnescapeChars(s: string)
    requires TildesPaired(s) && '/' !in s
    ensures EscapeChars(UnescapeChars(s)) == s
  {
    if s != "" {
      if s[0] == '~' {
        assert s == s[..2] + s[2..];
        EscapeUnescapeChars(s[2..]);
      } else {
        assert s == [s[0]] + s[1..];
        EscapeUnescapeChars(s[1..]);
      }
    }
  }

  /** escape and unescape are mutually inverse between all strings and the well-formed reference tokens. */
  lemma EscapeRoundTrip(s: string)
    ensures Unescape(Escape(s)) == s
    ensures '/' !in Escape(s) && TildesPaired(Escape(s))
    ensures TildesPaired(s) && '/' !in s ==> Escape(Unescape(s)) == s
  {
    EscapeIsEscapeChars(s);
    UnescapeEscapeChars(s);
    EscapeCharsShape(s);
    if TildesPaired(s) && '/' !in s {
      EscapeUnescapeChars(s);
      UnescapeEscapeChars(UnescapeChars(s));
      EscapeIsEscapeChars(Unescape(s));
    }
  }

  // ---------- the string form of a pointer ----------

  function ToString(tokens: seq<string>): string {
    if tokens == [] then "" else "/" + Escape(tokens[0]) + ToString(tokens[1..])
  }

  function FirstSlash(s: string): (n: nat)
    ensures n <= |s| && '/' !in s[..n]
    ensures n < |s| ==> s[n] == '/'
  {
    if s == "" || s[0] == '/' then 0 else 1 + FirstSlash(s[1..])
  }

  /** split: the constructor of json_pointer. */
  function Split(s: string): Result<seq<string>> {
    if s == "" then Ok([])
    else if s[0] != '/' then Err(ParseError(107))
    else SplitTokens(s[1..])
  }

  function SplitTokens(s: string): Result<seq<string>> {
    var n := FirstSlash(s);
    if !TildesPaired(s[..n]) then Err(ParseError(108))
    else if n == |s| then Ok([Unescape(s[..n])])
    else
      var rest :- SplitTokens(s[n + 1..]);
      Ok([Unescape(s[..n])] + rest)
  }

  lemma FirstSlashUnique(s: string, n: nat)
    requires n <= |s| && '/' !in s[..n] && (n < |s| ==> s[n] == '/')
    ensures FirstSlash(s) == n
  {
    var m := FirstSlash(s);
    assert forall i | 0 <= i < n :: s[i] == s[..n][i];
    assert forall i | 0 <= i < m :: s[i] == s[..m][i];
  }

  /** One step of split, on a well-formed token that is the last one or is followed by a slash. */
  lemma SplitOneToken(e: string, rest: string)
    requires '/' !in e && TildesPaired(e)
    requires rest != "" ==> rest[0] == '/'
    ensures SplitTokens(e + rest) ==
      if rest == "" then Ok([Unescape(e)])
      else if SplitTokens(rest[1..]).Err? then SplitTokens(rest[1..])
      else Ok([Unescape(e)] + SplitTokens(rest[1..]).value)
  {
    var s := e + rest;
    assert s[..|e|] == e;
    FirstSlashUnique(s, |e|);
    if rest != "" { assert s[|e| + 1..] == rest[1..]; }
  }

  lemma TextAfterSlash(e: string, rest: string)
    ensures ("/" + e + rest)[1..] == e + rest
  {}

  lemma {:induction false} SplitTokensToString(tokens: seq<string>)
    requires tokens != []
    ensures SplitTokens(ToString(tokens)[1..]) == Ok(tokens)
  {
    var token, tail := tokens[0], tokens[1..];
    var e, rest := Escape(token), ToString(tail);
    TextAfterSlash(e, rest);
    EscapeRoundTrip(token);
    SplitOneToken(e, rest);
    assert tokens == [token] + tail;
    if tail == [] {
      assert tokens == [token];
    } else {
      SplitTokensToString(tail);
    }
  }

  lemma JoinTokens(token: string, e: string, tokens: seq<string>, rest: string)
    requires Escape(token) == e && ToString(tokens) == rest
    ensures ToString([token] + tokens) == "/" + (e + rest)
  {
    assert ([token] + tokens)[1..] == tokens;
  }

  /** What a successful split says about the text up to the first slash and the text after it. */
  lemma SplitTokensOk(s: string) returns (token: string, e: string, rest: string)
    requires SplitTokens(s).Ok?
    ensures s == e + rest && Escape(token) == e && |rest| <= |s|
    ensures rest == "" ==> SplitTokens(s) == Ok([token])
    ensures rest != "" ==> rest[0] == '/' && SplitTokens(rest[1..]).Ok?
    ensures rest != "" ==> SplitTokens(s) == Ok([token] + SplitTokens(rest[1..]).value)
  {
    e, rest := FirstToken(s);
    token := Unescape(e);
    EscapeRoundTrip(e);
    SplitOneToken(e, rest);
  }

  lemma FirstToken(s: string) returns (e: string, rest: string)
    requires SplitTokens(s).Ok?
    ensures s == e + rest && TildesPaired(e) && '/' !in e && (rest != "" ==> rest[0] == '/')
  {
    var n := FirstSlash(s);
    e, rest := s[..n], s[n..];
  }

  lemma {:induction false} ToStringSplitTokens(s: string)
    requires SplitTokens(s).Ok?
    ensures SplitTokens(s).value != []
    ensures ToString(SplitTokens(s).value) == "/" + s
    decreases |s|
  {
    var token, e, rest := SplitTokensOk(s);
    if rest == "" {
      JoinTokens(token, e, [], "");
      assert [token] == [token] + [] && e + "" == s;
    } else {
      ToStringSplitTokens(rest[1..]);
      assert rest == "/" + rest[1..];
      JoinTokens(token, e, SplitTokens(rest[1..]).value, rest);
    }
  }

  /** A pointer survives its string form, and every string that parses is the string form of what it parses to. */
  lemma PointerRoundTrip(tokens: seq<string>, s: string)
    ensures Split(ToString(tokens)) == Ok(tokens)
    ensures Split(s).Ok? ==> ToString(Split(s).value) == s
  {
    if tokens != [] { SplitTokensToString(tokens); }
    if Split(s).Ok? && s != "" {
      ToStringSplitTokens(s[1..]);
      assert s == "/" + s[1..];
    }
  }

  // ---------- numerals ----------

  const INT_MAX: int := 0x7FFF_FFFF
  const INT_MIN: int := -0x8000_0000

  predicate IsDigit(c: char) {
    '0' <= c <= '9'
  }

  predicate IsSpace(c: char) {
    c as int in {9, 10, 11, 12, 13, 32}
  }

  /** std::to_string of an unsigned number. */
  function Numeral(n: nat): (s: string)
    ensures s != "" && forall i | 0 <= i < |s| :: IsDigit(s[i])
    ensures |s| > 1 ==> s[0] != '0'
    ensures n > 0 ==> s[0] != '0'
  {
    if n < 10 then [('0' as int + n) as char]
    else Numeral(n / 10) + [('0' as int + n % 10) as char]
  }

  function DigitsValue(s: string): nat
    requires forall i | 0 <= i < |s| :: IsDigit(s[i])
  {
    if s == "" then 0 else
      var last := s[|s| - 1];
      assert IsDigit(last);
      10 * DigitsValue(s[..|s| - 1]) + (last as int - '0' as int)
  }

  function CountSpaces(s: string): (n: nat)
    ensures n <= |s|
  {
    if s != "" && IsSpace(s[0]) then 1 + CountSpaces(s[1..]) else 0
  }

  function CountDigits(s: string): (n: nat)
    ensures n <= |s| && forall i | 0 <= i < n :: IsDigit(s[i])
    ensures n < |s| ==> !IsDigit(s[n])
  {
    if s != "" && IsDigit(s[0]) then 1 + CountDigits(s[1..]) else 0
  }

  /** array_index: std::stoi, then a check that it read the whole token. */
  function ArrayIndex(s: string): Result<int> {
    var spaces := CountSpaces(s);
    var signs := if spaces < |s| && (s[spaces] == '-' || s[spaces] == '+') then 1 else 0;
    var start := spaces + signs;
    var digits := CountDigits(s[start..]);
    var magnitude: int := DigitsValue(s[start..][..digits]);
    var value: int := if signs == 1 && s[spaces] == '-' then 0 - magnitude else magnitude;
    if digits == 0 then Err(StdInvalidArgument)
    else if value < INT_MIN || INT_MAX < value then Err(StdOutOfRange)
    else if start + digits != |s| then Err(OutOfRange(404))
    else Ok(value)
  }

  lemma {:induction false} NumeralValue(n: nat)
    ensures DigitsValue(Numeral(n)) == n
  {
    if n >= 10 {
      NumeralValue(n / 10);
      assert Numeral(n)[..|Numeral(n)| - 1] == Numeral(n / 10);
    }
  }

  /** The index of a numeral is the number itself exactly up to INT_MAX; beyond it std::stoi throws. */
  lemma ArrayIndexOfNumeral(n: nat)
    ensures ArrayIndex(Numeral(n)) == if n <= INT_MAX then Ok(n) else Err(StdOutOfRange)
  {
    var s := Numeral(n);
    NumeralValue(n);
    assert s[0..] == s && s[..|s|] == s;
  }

  predicate AllSpaces(s: string) {
    forall i | 0 <= i < |s| :: s[i] == ' ' || '\t' <= s[i] <= '\r'
  }

  predicate AllDigits(s: string) {
    forall i | 0 <= i < |s| :: '0' <= s[i] <= '9'
  }

  /** How std::stoi sees a text: white space, at most one sign, digits as long as there are any, and the rest. */
  predicate StoiParts(s: string, spaces: string, sign: string, digits: string, rest: string) {
    && s == spaces + (sign + (digits + rest))
    && AllSpaces(spaces) && sign in {"", "+", "-"} && AllDigits(digits)
    && (rest != "" ==> !('0' <= rest[0] <= '9'))
    && (sign + digits == "" && rest != "" ==> !AllSpaces(rest[..1]) && rest[0] !in {'+', '-'})
  }

  lemma {:induction false} SpacesCounted(spaces: string, tail: string)
    requires AllSpaces(spaces) && (tail != "" ==> !AllSpaces(tail[..1]))
    ensures CountSpaces(spaces + tail) == |spaces|
  {
    if spaces == "" {
      assert spaces + tail == tail;
      if tail != "" { assert !IsSpace(tail[0]); }
    } else {
      assert (spaces + tail)[1..] == spaces[1..] + tail;
      SpacesCounted(spaces[1..], tail);
    }
  }

  lemma {:induction false} DigitsCounted(digits: string, tail: string)
    requires AllDigits(digits) && (tail != "" ==> !('0' <= tail[0] <= '9'))
    ensures CountDigits(digits + tail) == |digits| && (digits + tail)[..|digits|] == digits
  {
    if digits == "" {
      assert digits + tail == tail;
    } else {
      assert (digits + tail)[1..] == digits[1..] + tail;
      DigitsCounted(digits[1..], tail);
    }
  }

  /** Every text has such parts. */
  lemma StoiPartsExist(s: string) returns (spaces: string, sign: string, digits: string, rest: string)
    ensures StoiParts(s, spaces, sign, digits, rest)
  {
    var tail := s[CountSpaces(s)..];
    spaces := s[..CountSpaces(s)];
    assert s == spaces + tail;
    SpacesSkipped(s);
    var number := tail;
    sign := "";
    if tail != "" && tail[0] in {'+', '-'} {
      sign, number := if tail[0] == '+' then "+" else "-", tail[1..];
      assert tail == sign + number;
    } else {
      assert tail == sign + number;
    }
    digits, rest := DigitsSplit(number);
    if sign == "" && digits == "" { assert rest == tail; }
  }

  lemma DigitsSplit(s: string) returns (digits: string, rest: string)
    ensures s == digits + rest && AllDigits(digits) && (rest != "" ==> !('0' <= rest[0] <= '9'))
  {
    digits, rest := s[..CountDigits(s)], s[CountDigits(s)..];
  }

  lemma {:induction false} SpacesSkipped(s: string)
    ensures AllSpaces(s[..CountSpaces(s)])
    ensures CountSpaces(s) < |s| ==> !AllSpaces(s[CountSpaces(s)..][..1])
  {
    var n := CountSpaces(s);
    if s != "" && IsSpace(s[0]) {
      SpacesSkipped(s[1..]);
      var rest := s[1..];
      assert forall i | 1 <= i < n :: s[i] == rest[..n - 1][i - 1];
      assert s[n..] == rest[n - 1..];
    } else if s != "" {
      assert s[0..][..1][0] == s[0];
    }
  }

  lemma StoiScan(s: string, spaces: string, sign: string, digits: string, rest: string)
    requires StoiParts(s, spaces, sign, digits, rest)
    ensures CountSpaces(s) == |spaces|
    ensures |sign| == if |spaces| < |s| && (s[|spaces|] == '-' || s[|spaces|] == '+') then 1 else 0
    ensures sign == "-" <==> |sign| == 1 && s[|spaces|] == '-'
    ensures s[|spaces| + |sign|..] == digits + rest && |s| == |spaces| + |sign| + |digits| + |rest|
  {
    TailIsNoSpace(sign, digits, rest);
    SpacesCounted(spaces, sign + (digits + rest));
    assert sign == "" && digits != "" ==> s[|spaces|] == digits[0];
    assert sign == "" && digits == "" && rest != "" ==> s[|spaces|] == rest[0];
  }

  /** What array_index makes of every text, by its parts: the value, or the exception. */
  lemma ArrayIndexByParts(s: string, spaces: string, sign: string, digits: string, rest: string)
    requires StoiParts(s, spaces, sign, digits, rest)
    ensures digits == "" ==> ArrayIndex(s) == Err(StdInvalidArgument)
    ensures digits != "" ==>
      var value := if sign == "-" then 0 - DigitsValue(digits) else DigitsValue(digits);
      ArrayIndex(s) ==
        if value < -0x8000_0000 || 0x7FFF_FFFF < value then Err(StdOutOfRange)
        else if rest != "" then Err(OutOfRange(404))
        else Ok(value)
  {
    StoiScan(s, spaces, sign, digits, rest);
    DigitsCounted(digits, rest);
  }

  lemma TailIsNoSpace(sign: string, digits: string, rest: string)
    requires sign in {"", "+", "-"} && AllDigits(digits)
    requires sign + digits == "" && rest != "" ==> !AllSpaces(rest[..1])
    ensures var tail := sign + (digits + rest); tail != "" ==> !AllSpaces(tail[..1])
  {
    var tail := sign + (digits + rest);
    if tail != "" { assert tail[..1][0] == tail[0]; }
    if sign == "" && digits == "" { assert tail == rest; }
  }

  /** A nonempty string of digits without leading zeros: the array indices of section 4 of RFC 6901. */
  predicate IsNumeral(s: string) {
    s != "" && (|s| > 1 ==> s[0] != '0') && forall i | 0 <= i < |s| :: IsDigit(s[i])
  }

  lemma {:induction false} NumeralOfDigits(s: string)
    requires IsNumeral(s)
    ensures Numeral(DigitsValue(s)) == s
  {
    var rest, last := s[..|s| - 1], s[|s| - 1];
    assert s == rest + [last] && IsDigit(last);
    if rest == "" {
      assert DigitsValue(s) < 10;
    } else {
      NumeralOfDigits(rest);
      assert DigitsValue(rest) > 0;
      assert DigitsValue(s) / 10 == DigitsValue(rest);
    }
  }

  lemma {:induction false} EscapeNumeral(n: nat)
    ensures Escape(Numeral(n)) == Numeral(n)
  {
    EscapeIsEscapeChars(Numeral(n));
    EscapeCharsPlain(Numeral(n));
  }

  lemma {:induction false} EscapeCharsPlain(s: string)
    requires '~' !in s && '/' !in s
    ensures EscapeChars(s) == s
  {
    if s != "" {
      assert s == [s[0]] + s[1..];
      EscapeCharsPlain(s[1..]);
    }
  }
}
