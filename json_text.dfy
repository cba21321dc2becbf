/** JSON text for the float-free subset of `Json.Value`:
    - `Serialize` is `json.dumps(v, ensure_ascii=False, separators=(',', ':'))`,
      the compact form the layout encoder writes;
    - `Parse` is `json.loads`, which the layout decoder applies to each
      string-encoded field.
    The round trip `Parse(Serialize(v)) == Ok(v)` is proved below. */
module JsonText {
  import opened Results
  import opened Json

  // ---------------------------------------------------------------------
  // Characters
  // ---------------------------------------------------------------------

  predicate IsDigit(c: char)
  {
    '0' <= c <= '9'
  }

  predicate IsHexDigit(c: char)
  {
    IsDigit(c) || 'a' <= c <= 'f' || 'A' <= c <= 'F'
  }

  /** The four characters json.loads skips between tokens. */
  predicate IsWhitespace(c: char)
  {
    c == ' ' || c == '\t' || c == '\n' || c == '\r'
  }

  function DigitChar(d: nat): (c: char)
    requires d < 10
    ensures IsDigit(c)
  {
    ('0' as int + d) as char
  }

  function DigitValue(c: char): (d: nat)
    requires IsDigit(c)
    ensures d < 10 && DigitChar(d) == c
  {
    c as int - '0' as int
  }

  /** Lower-case hexadecimal digit, as Python's `'{0:04x}'` writes it. */
  function HexChar(d: nat): (c: char)
    requires d < 16
    ensures IsHexDigit(c)
  {
    if d < 10 then DigitChar(d) else ('a' as int + d - 10) as char
  }

  function HexValue(c: char): (d: nat)
    requires IsHexDigit(c)
    ensures d < 16
  {
    if IsDigit(c) then DigitValue(c)
    else if 'a' <= c <= 'f' then c as int - 'a' as int + 10
    else c as int - 'A' as int + 10
  }

  lemma HexValueOfHexChar(d: nat)
    requires d < 16
    ensures HexValue(HexChar(d)) == d
  {
  }

  /** The remainder of `s` once leading whitespace is skipped. */
  function SkipWhitespace(s: string): (r: string)
    ensures |r| <= |s|
    ensures r == [] || !IsWhitespace(r[0])
  {
    if |s| > 0 && IsWhitespace(s[0]) then SkipWhitespace(s[1..]) else s
  }

  lemma SkipNoWhitespace(s: string)
    requires |s| > 0 && !IsWhitespace(s[0])
    ensures SkipWhitespace(s) == s
  {
  }

  /** Everything skipped is whitespace. */
  lemma {:induction false} SkipWhitespaceSkipsOnly(s: string)
    ensures SkipWhitespace(s) == s[|s| - |SkipWhitespace(s)|..]
    ensures forall i :: 0 <= i < |s| - |SkipWhitespace(s)| ==> IsWhitespace(s[i])
  {
    if |s| > 0 && IsWhitespace(s[0]) {
      SkipWhitespaceSkipsOnly(s[1..]);
      forall i | 0 <= i < |s| - |SkipWhitespace(s)|
        ensures IsWhitespace(s[i])
      {
        if i > 0 {
          assert s[i] == s[1..][i - 1];
        }
      }
    }
  }

  // ---------------------------------------------------------------------
  // Integers
  // ---------------------------------------------------------------------

  /** Decimal text of a natural number, without leading zeros (Python `str(n)`). */
  function NatText(n: nat): (r: string)
    ensures |r| > 0
    ensures forall i :: 0 <= i < |r| ==> IsDigit(r[i])
    ensures r[0] == '0' <==> n == 0
  {
    if n < 10 then [DigitChar(n)] else NatText(n / 10) + [DigitChar(n % 10)]
  }

  /** Python `str(i)` for an `int`. */
  function IntText(i: int): (r: string)
    ensures |r| > 0
    ensures r[0] == '-' <==> i < 0
    ensures i < 0 ==> r == "-" + NatText(-i)
    ensures i >= 0 ==> r == NatText(i)
  {
    if i < 0 then "-" + NatText(-i) else NatText(i)
  }

  /** Value of a string of decimal digits, most significant first. */
  function DigitsValue(ds: string): nat
    requires forall i :: 0 <= i < |ds| ==> IsDigit(ds[i])
  {
    if ds == [] then 0 else 10 * DigitsValue(ds[..|ds| - 1]) + DigitValue(ds[|ds| - 1])
  }

  lemma {:induction false} DigitsValueOfNatText(n: nat)
    ensures DigitsValue(NatText(n)) == n
  {
    if n >= 10 {
      var t := NatText(n);
      assert t[..|t| - 1] == NatText(n / 10);
      DigitsValueOfNatText(n / 10);
    }
  }

  /** Length of the run of digits at the start of `s`. */
  function DigitRun(s: string): (k: nat)
    ensures k <= |s|
    ensures forall i :: 0 <= i < k ==> IsDigit(s[i])
    ensures k == |s| || !IsDigit(s[k])
  {
    if |s| > 0 && IsDigit(s[0]) then 1 + DigitRun(s[1..]) else 0
  }

  // ---------------------------------------------------------------------
  // Serialisation
  // ---------------------------------------------------------------------

  /** The escape json.dumps writes for one character of a string. */
  function EscapeChar(c: char): string
  {
    if c == '"' then "\\\""
    else if c == '\\' then "\\\\"
    else if c == '\n' then "\\n"
    else if c == '\r' then "\\r"
    else if c == '\t' then "\\t"
    else if c == 8 as char then "\\b"
    else if c == 12 as char then "\\f"
    else if c < ' ' then "\\u00" + [HexChar(c as int / 16), HexChar(c as int % 16)]
    else [c]
  }

  function Escape(s: string): string
  {
    if s == [] then [] else EscapeChar(s[0]) + Escape(s[1..])
  }

  function Quote(s: string): string
  {
    "\"" + Escape(s) + "\""
  }

  function Serialize(v: Value): string
  {
    match v
    case Null => "null"
    case Bool(b) => if b then "true" else "false"
    case Int(i) => IntText(i)
    case Str(s) => Quote(s)
    case Arr(items) => "[" + SerializeItems(items) + "]"
    case Obj(members) => "{" + SerializeMembers(members) + "}"
  }

  function SerializeItems(items: seq<Value>): string
  {
    if items == [] then ""
    else if |items| == 1 then Serialize(items[0])
    else Serialize(items[0]) + "," + SerializeItems(items[1..])
  }

  function SerializeMember(m: Member): string
  {
    Quote(m.key) + ":" + Serialize(m.value)
  }

  function SerializeMembers(ms: seq<Member>): string
  {
    if ms == [] then ""
    else if |ms| == 1 then SerializeMember(ms[0])
    else SerializeMember(ms[0]) + "," + SerializeMembers(ms[1..])
  }

  // ---------------------------------------------------------------------
  // Parsing
  // ---------------------------------------------------------------------

  /** The four hexadecimal digits of a `\uXXXX` escape. */
  function Hex4Value(h: string): (n: nat)
    requires |h| == 4 && forall i :: 0 <= i < 4 ==> IsHexDigit(h[i])
    ensures n < 0x1_0000
  {
    ((HexValue(h[0]) * 16 + HexValue(h[1])) * 16 + HexValue(h[2])) * 16 + HexValue(h[3])
  }

  /** One escape sequence; `s` starts just after the backslash. */
  function ParseEscape(s: string): (r: Result<(char, string)>)
    ensures r.Ok? ==> |r.value.1| < |s|
  {
    if |s| == 0 then Err(JsonDecodeError("Unterminated string"))
    else if s[0] == '"' then Ok(('"', s[1..]))
    else if s[0] == '\\' then Ok(('\\', s[1..]))
    else if s[0] == '/' then Ok(('/', s[1..]))
    else if s[0] == 'b' then Ok((8 as char, s[1..]))
    else if s[0] == 'f' then Ok((12 as char, s[1..]))
    else if s[0] == 'n' then Ok(('\n', s[1..]))
    else if s[0] == 'r' then Ok(('\r', s[1..]))
    else if s[0] == 't' then Ok(('\t', s[1..]))
    else if s[0] == 'u' then
      if |s| >= 5 && IsHexDigit(s[1]) && IsHexDigit(s[2]) && IsHexDigit(s[3]) && IsHexDigit(s[4]) then
        var n := Hex4Value(s[1..5]);
        if 0xD800 <= n < 0xE000 then Err(JsonDecodeError("surrogate escapes are not modelled"))
        else Ok((n as char, s[5..]))
      else Err(JsonDecodeError("Invalid \\uXXXX escape"))
    else Err(JsonDecodeError("Invalid \\escape"))
  }

  /** The body of a string literal; `s` starts just after the opening quote. */
  function ParseStringBody(s: string): (r: Result<(string, string)>)
    ensures r.Ok? ==> |r.value.1| < |s|
  {
    if |s| == 0 then Err(JsonDecodeError("Unterminated string"))
    else if s[0] == '"' then Ok(([], s[1..]))
    else if s[0] == '\\' then
      var e :- ParseEscape(s[1..]);
      var t :- ParseStringBody(e.1);
      Ok(([e.0] + t.0, t.1))
    else if s[0] < ' ' then Err(JsonDecodeError("Invalid control character"))
    else
      var t :- ParseStringBody(s[1..]);
      Ok(([s[0]] + t.0, t.1))
  }

  /** The digits of an integer literal; a fraction or an exponent after them
      would make the literal a float. */
  function ParseMagnitude(t: string): (r: Result<(nat, string)>)
    ensures r.Ok? ==> |r.value.1| < |t|
  {
    if |t| == 0 || !IsDigit(t[0]) then Err(JsonDecodeError("Expecting value"))
    else
      var k := if t[0] == '0' then 1 else DigitRun(t);
      var rest := t[k..];
      if |rest| > 0 && (rest[0] == '.' || rest[0] == 'e' || rest[0] == 'E') then
        Err(JsonDecodeError("floating-point numbers are not modelled"))
      else
        Ok((DigitsValue(t[..k]), rest))
  }

  /** An integer literal: an optional minus sign, then its digits. */
  function ParseNumber(s: string): (r: Result<(Value, string)>)
    requires |s| > 0 && (s[0] == '-' || IsDigit(s[0]))
    ensures r.Ok? ==> |r.value.1| < |s|
  {
    var negative := s[0] == '-';
    var m :- ParseMagnitude(if negative then s[1..] else s);
    Ok((Int(if negative then -(m.0 as int) else m.0), m.1))
  }

  /** The literal `word` at the start of `s`, read as `v`. */
  function ParseLiteral(s: string, word: string, v: Value): (r: Result<(Value, string)>)
    requires |word| > 0
    ensures r.Ok? ==> |r.value.1| < |s|
  {
    if |word| <= |s| && s[..|word|] == word then Ok((v, s[|word|..]))
    else Err(JsonDecodeError("Expecting value"))
  }

  /** One value at the start of `s` (no leading whitespace), and the rest;
      its first character decides what kind of value it is. */
  function ParseValue(s: string): (r: Result<(Value, string)>)
    decreases |s|, 1
    ensures r.Ok? ==> |r.value.1| < |s|
  {
    if |s| == 0 then Err(JsonDecodeError("Expecting value"))
    else if s[0] == '-' || IsDigit(s[0]) then ParseNumber(s)
    else if s[0] == '"' then
      var p :- ParseStringBody(s[1..]);
      Ok((Str(p.0), p.1))
    else if s[0] == '[' then ParseArrayAt(s)
    else if s[0] == '{' then ParseObjectAt(s)
    else if s[0] == 'n' then ParseLiteral(s, "null", Null)
    else if s[0] == 't' then ParseLiteral(s, "true", Bool(true))
    else if s[0] == 'f' then ParseLiteral(s, "false", Bool(false))
    else Err(JsonDecodeError("Expecting value"))
  }

  /** An array starting at its `[`. */
  function ParseArrayAt(s: string): (r: Result<(Value, string)>)
    requires |s| > 0
    decreases |s|, 0
    ensures r.Ok? ==> |r.value.1| < |s|
  {
    ParseArray(SkipWhitespace(s[1..]))
  }

  /** An array after its `[` and the whitespace that follows it. */
  function ParseArray(s: string): (r: Result<(Value, string)>)
    decreases |s|, 3
    ensures r.Ok? ==> |r.value.1| < |s|
  {
    if |s| > 0 && s[0] == ']' then Ok((Arr([]), s[1..]))
    else
      var p :- ParseItems(s);
      Ok((Arr(p.0), p.1))
  }

  /** The items of a non-empty array, up to and including its `]`. */
  function ParseItems(s: string): (r: Result<(seq<Value>, string)>)
    decreases |s|, 2
    ensures r.Ok? ==> |r.value.1| < |s|
  {
    var p :- ParseValue(s);
    var rest := SkipWhitespace(p.1);
    if |rest| > 0 && rest[0] == ',' then
      var q :- ParseItems(SkipWhitespace(rest[1..]));
      Ok(([p.0] + q.0, q.1))
    else if |rest| > 0 && rest[0] == ']' then Ok(([p.0], rest[1..]))
    else Err(JsonDecodeError("Expecting ',' delimiter"))
  }

  /** An object starting at its `{`. */
  function ParseObjectAt(s: string): (r: Result<(Value, string)>)
    requires |s| > 0
    decreases |s|, 0
    ensures r.Ok? ==> |r.value.1| < |s|
  {
    ParseObject(SkipWhitespace(s[1..]))
  }

  /** An object after its `{` and the whitespace that follows it. */
  function ParseObject(s: string): (r: Result<(Value, string)>)
    decreases |s|, 3
    ensures r.Ok? ==> |r.value.1| < |s|
  {
    if |s| > 0 && s[0] == '}' then Ok((Obj([]), s[1..]))
    else
      var p :- ParseMembers(s);
      Ok((Obj(p.0), p.1))
  }

  /** One member `"key": value` of an object, and the rest after the value. */
  function ParseMember(s: string): (r: Result<(Member, string)>)
    decreases |s|, 1
    ensures r.Ok? ==> |r.value.1| < |s|
  {
    if |s| == 0 || s[0] != '"' then Err(JsonDecodeError("Expecting property name enclosed in double quotes"))
    else
      var k :- ParseStringBody(s[1..]);
      var colon := SkipWhitespace(k.1);
      if |colon| == 0 || colon[0] != ':' then Err(JsonDecodeError("Expecting ':' delimiter"))
      else
        var v :- ParseValue(SkipWhitespace(colon[1..]));
        Ok((Member(k.0, v.0), v.1))
  }

  /** The members of a non-empty object, up to and including its `}`. */
  function ParseMembers(s: string): (r: Result<(seq<Member>, string)>)
    decreases |s|, 2
    ensures r.Ok? ==> |r.value.1| < |s|
  {
    var m :- ParseMember(s);
    var rest := SkipWhitespace(m.1);
    if |rest| > 0 && rest[0] == ',' then
      var q :- ParseMembers(SkipWhitespace(rest[1..]));
      Ok(([m.0] + q.0, q.1))
    else if |rest| > 0 && rest[0] == '}' then Ok(([m.0], rest[1..]))
    else Err(JsonDecodeError("Expecting ',' delimiter"))
  }

  /** json.loads: one value, surrounded by optional whitespace and nothing else. */
  function Parse(text: string): Result<Value>
  {
    var p :- ParseValue(SkipWhitespace(text));
    if SkipWhitespace(p.1) == [] then Ok(p.0) else Err(JsonDecodeError("Extra data"))
  }

  // ---------------------------------------------------------------------
  // Round trip
  // ---------------------------------------------------------------------

  /** What may follow a serialised value without changing how it parses:
      only a number looks ahead, for more digits, a fraction or an exponent. */
  predicate Delimited(rest: string)
  {
    rest == [] || !(IsDigit(rest[0]) || rest[0] == '.' || rest[0] == 'e' || rest[0] == 'E')
  }

  lemma SerializeStart(v: Value)
    ensures |Serialize(v)| > 0
    ensures !IsWhitespace(Serialize(v)[0]) && Serialize(v)[0] != ']' && Serialize(v)[0] != '}'
  {
  }

  // One step of the parser on text whose first character is known.

  lemma ParseValueOfNumber(s: string)
    requires |s| > 0 && (s[0] == '-' || IsDigit(s[0]))
    ensures ParseValue(s) == ParseNumber(s)
  {
  }

  lemma ParseValueOfString(s: string, str: string, rest: string)
    requires |s| > 0 && s[0] == '"' && ParseStringBody(s[1..]) == Ok((str, rest))
    ensures ParseValue(s) == Ok((Str(str), rest))
  {
  }

  lemma ParseValueOfArray(s: string, body: string)
    requires |s| > 0 && s[0] == '[' && s[1..] == body && SkipWhitespace(body) == body
    ensures ParseValue(s) == ParseArray(body)
  {
  }

  lemma ParseValueOfObject(s: string, body: string)
    requires |s| > 0 && s[0] == '{' && s[1..] == body && SkipWhitespace(body) == body
    ensures ParseValue(s) == ParseObject(body)
  {
  }

  lemma ParseArrayOfItems(s: string, vs: seq<Value>, rest: string)
    requires |s| > 0 && s[0] != ']' && ParseItems(s) == Ok((vs, rest))
    ensures ParseArray(s) == Ok((Arr(vs), rest))
  {
  }

  lemma ParseObjectOfMembers(s: string, ms: seq<Member>, rest: string)
    requires |s| > 0 && s[0] != '}' && ParseMembers(s) == Ok((ms, rest))
    ensures ParseObject(s) == Ok((Obj(ms), rest))
  {
  }

  lemma ParseStringBodyEscaped(s: string, c: char, after: string)
    requires |s| > 0 && s[0] == '\\' && ParseEscape(s[1..]) == Ok((c, after))
    ensures ParseStringBody(s) ==
      match ParseStringBody(after)
      case Err(e) => Err(e)
      case Ok(t) => Ok(([c] + t.0, t.1))
  {
  }

  lemma ParseStringBodyPlain(s: string)
    requires |s| > 0 && s[0] != '"' && s[0] != '\\' && s[0] >= ' '
    ensures ParseStringBody(s) ==
      match ParseStringBody(s[1..])
      case Err(e) => Err(e)
      case Ok(t) => Ok(([s[0]] + t.0, t.1))
  {
  }

  // Integers

  lemma {:induction false} ParseNatText(n: nat, rest: string)
    requires Delimited(rest)
    ensures ParseMagnitude(NatText(n) + rest) == Ok((n, rest))
  {
    var digits := NatText(n);
    var t := digits + rest;
    assert t[0] == digits[0];
    var k := if t[0] == '0' then 1 else DigitRun(t);
    if t[0] != '0' {
      if |rest| > 0 {
        assert t[|digits|] == rest[0];
      }
    }
    assert k == |digits|;
    assert t[..k] == digits;
    assert t[k..] == rest;
    DigitsValueOfNatText(n);
  }

  lemma ParseNumberOfMagnitude(t: string, n: nat, rest: string)
    requires |t| > 0 && IsDigit(t[0]) && ParseMagnitude(t) == Ok((n, rest))
    ensures ParseNumber(t) == Ok((Int(n), rest))
  {
  }

  lemma ParseNumberOfNegated(s: string, n: nat, rest: string)
    requires |s| > 0 && s[0] == '-' && ParseMagnitude(s[1..]) == Ok((n, rest))
    ensures ParseNumber(s) == Ok((Int(-(n as int)), rest))
  {
  }

  lemma ParseNumberOfNatText(n: nat, rest: string)
    requires Delimited(rest)
    ensures ParseNumber(NatText(n) + rest) == Ok((Int(n), rest))
  {
    var s := NatText(n) + rest;
    assert s[0] == NatText(n)[0];
    ParseNatText(n, rest);
    ParseNumberOfMagnitude(s, n, rest);
  }

  lemma ParseNumberOfNegativeText(n: nat, rest: string)
    requires Delimited(rest)
    ensures ParseNumber("-" + NatText(n) + rest) == Ok((Int(-(n as int)), rest))
  {
    var s := "-" + NatText(n) + rest;
    Associate("-", NatText(n), rest);
    assert s[1..] == NatText(n) + rest;
    ParseNatText(n, rest);
    ParseNumberOfNegated(s, n, rest);
  }

  lemma ParseNumberOfIntText(i: int, rest: string)
    requires Delimited(rest)
    ensures ParseNumber(IntText(i) + rest) == Ok((Int(i), rest))
  {
    if i < 0 {
      ParseNumberOfNegativeText(-i, rest);
    } else {
      ParseNumberOfNatText(i, rest);
    }
  }

  lemma ParseIntText(i: int, rest: string)
    requires Delimited(rest)
    ensures ParseValue(IntText(i) + rest) == Ok((Int(i), rest))
  {
    ParseNumberOfIntText(i, rest);
    var s := IntText(i) + rest;
    assert s[0] == IntText(i)[0];
    assert s[0] == '-' || IsDigit(s[0]) by {
      if i >= 0 { assert IsDigit(NatText(i)[0]); }
    }
    ParseValueOfNumber(s);
  }

  // Strings

  /** The `\u00XX` escape of a control character reads back as that character. */
  lemma ParseUnicodeEscape(c: char, rest: string)
    requires c < ' ' && c != '\n' && c != '\r' && c != '\t' && c != 8 as char && c != 12 as char
    ensures |EscapeChar(c)| == 6 && EscapeChar(c)[0] == '\\'
    ensures ParseEscape(EscapeChar(c)[1..] + rest) == Ok((c, rest))
  {
    var n := c as int;
    var e := EscapeChar(c)[1..] + rest;
    var h := e[1..5];
    assert h == "00" + [HexChar(n / 16), HexChar(n % 16)];
    HexValueOfHexChar(n / 16);
    HexValueOfHexChar(n % 16);
    assert Hex4Value(h) == n;
    assert e[5..] == rest;
  }

  /** The two-character escapes read back as the character they stand for. */
  lemma ParseShortEscape(c: char, rest: string)
    requires c == '"' || c == '\\' || c == '\n' || c == '\r' || c == '\t' || c == 8 as char || c == 12 as char
    ensures |EscapeChar(c)| == 2 && EscapeChar(c)[0] == '\\'
    ensures ParseEscape(EscapeChar(c)[1..] + rest) == Ok((c, rest))
  {
    assert (EscapeChar(c)[1..] + rest)[1..] == rest;
  }

  lemma ParseEscapedChar(c: char, rest: string)
    ensures ParseStringBody(EscapeChar(c) + rest) ==
      match ParseStringBody(rest)
      case Err(e) => Err(e)
      case Ok(t) => Ok(([c] + t.0, t.1))
  {
    var s := EscapeChar(c) + rest;
    if c == '"' || c == '\\' || c == '\n' || c == '\r' || c == '\t' || c == 8 as char || c == 12 as char {
      ParseShortEscape(c, rest);
      assert s[1..] == EscapeChar(c)[1..] + rest;
      ParseStringBodyEscaped(s, c, rest);
    } else if c < ' ' {
      ParseUnicodeEscape(c, rest);
      assert s[1..] == EscapeChar(c)[1..] + rest;
      ParseStringBodyEscaped(s, c, rest);
    } else {
      assert s == [c] + rest;
      assert s[1..] == rest;
      ParseStringBodyPlain(s);
    }
  }

  lemma {:induction false} ParseQuoted(str: string, rest: string)
    ensures ParseStringBody(Escape(str) + "\"" + rest) == Ok((str, rest))
  {
    if str == [] {
      assert Escape(str) + "\"" + rest == "\"" + rest;
    } else {
      EscapeShape(str, rest);
      ParseQuoted(str[1..], rest);
      ParseEscapedChar(str[0], Escape(str[1..]) + "\"" + rest);
      assert [str[0]] + str[1..] == str;
    }
  }

  // Values, arrays and objects

  /** The first character of `[c] + t`, and what follows it. */
  lemma Uncons(c: char, t: string)
    ensures ([c] + t)[0] == c && ([c] + t)[1..] == t
  {
  }

  lemma SerializeStrShape(str: string, rest: string)
    ensures Serialize(Str(str)) + rest == ['"'] + (Escape(str) + "\"" + rest)
  {
  }

  lemma SerializeArrShape(items: seq<Value>, rest: string)
    ensures Serialize(Arr(items)) + rest == ['['] + (SerializeItems(items) + "]" + rest)
  {
  }

  lemma SerializeObjShape(ms: seq<Member>, rest: string)
    ensures Serialize(Obj(ms)) + rest == ['{'] + (SerializeMembers(ms) + "}" + rest)
  {
  }

  lemma EscapeShape(str: string, rest: string)
    requires str != []
    ensures Escape(str) + "\"" + rest == EscapeChar(str[0]) + (Escape(str[1..]) + "\"" + rest)
  {
  }

  lemma {:induction false} ParseSerialized(v: Value, rest: string)
    requires Delimited(rest)
    ensures ParseValue(Serialize(v) + rest) == Ok((v, rest))
    decreases v, 3
  {
    match v
    case Null =>
    case Bool(b) =>
    case Int(i) =>
      ParseIntText(i, rest);
    case Str(str) =>
      ParseSerializedString(str, rest);
    case Arr(items) =>
      ParseSerializedArray(items, rest);
    case Obj(ms) =>
      ParseSerializedObject(ms, rest);
  }

  lemma ParseSerializedString(str: string, rest: string)
    ensures ParseValue(Serialize(Str(str)) + rest) == Ok((Str(str), rest))
  {
    var s := Serialize(Str(str)) + rest;
    SerializeStrShape(str, rest);
    Uncons('"', Escape(str) + "\"" + rest);
    ParseQuoted(str, rest);
    ParseValueOfString(s, str, rest);
  }

  lemma {:induction false} ParseSerializedArray(items: seq<Value>, rest: string)
    ensures ParseValue(Serialize(Arr(items)) + rest) == Ok((Arr(items), rest))
    decreases items, 2
  {
    var s := Serialize(Arr(items)) + rest;
    var body := SerializeItems(items) + "]" + rest;
    SerializeArrShape(items, rest);
    Uncons('[', body);
    ParseArrayBody(items, rest);
    ParseValueOfArray(s, body);
  }

  lemma {:induction false} ParseSerializedObject(ms: seq<Member>, rest: string)
    ensures ParseValue(Serialize(Obj(ms)) + rest) == Ok((Obj(ms), rest))
    decreases ms, 2
  {
    var s := Serialize(Obj(ms)) + rest;
    var body := SerializeMembers(ms) + "}" + rest;
    SerializeObjShape(ms, rest);
    Uncons('{', body);
    ParseObjectBody(ms, rest);
    ParseValueOfObject(s, body);
  }

  /** The text after the `[` of a serialised array. */
  lemma {:induction false} ParseArrayBody(items: seq<Value>, rest: string)
    ensures SkipWhitespace(SerializeItems(items) + "]" + rest) == SerializeItems(items) + "]" + rest
    ensures ParseArray(SerializeItems(items) + "]" + rest) == Ok((Arr(items), rest))
    decreases items, 1
  {
    var body := SerializeItems(items) + "]" + rest;
    if items == [] {
      assert body == "]" + rest;
      assert body[0] == ']' && body[1..] == rest;
      assert ParseArray(body) == Ok((Arr([]), rest));
      SkipNoWhitespace(body);
    } else {
      SerializeItemsStart(items, rest);
      SkipNoWhitespace(body);
      assert body[0] == Serialize(items[0])[0];
      ParseSerializedItems(items, rest);
      ParseArrayOfItems(body, items, rest);
    }
  }

  /** The text after the `{` of a serialised object. */
  lemma {:induction false} ParseObjectBody(ms: seq<Member>, rest: string)
    ensures SkipWhitespace(SerializeMembers(ms) + "}" + rest) == SerializeMembers(ms) + "}" + rest
    ensures ParseObject(SerializeMembers(ms) + "}" + rest) == Ok((Obj(ms), rest))
    decreases ms, 1
  {
    var body := SerializeMembers(ms) + "}" + rest;
    if ms == [] {
      assert body == "}" + rest;
      assert body[0] == '}' && body[1..] == rest;
      assert ParseObject(body) == Ok((Obj([]), rest));
      SkipNoWhitespace(body);
    } else {
      SerializeMembersStart(ms);
      assert body[0] == '"';
      SkipNoWhitespace(body);
      ParseSerializedMembers(ms, rest);
      ParseObjectOfMembers(body, ms, rest);
    }
  }

  lemma ParseItemsLast(s: string, v: Value, rest: string)
    requires ParseValue(s) == Ok((v, "]" + rest))
    ensures ParseItems(s) == Ok(([v], rest))
  {
    assert SkipWhitespace("]" + rest) == "]" + rest;
    assert ("]" + rest)[1..] == rest;
  }

  lemma ParseItemsNext(s: string, v: Value, tail: string, vs: seq<Value>, rest: string)
    requires ParseValue(s) == Ok((v, "," + tail))
    requires SkipWhitespace(tail) == tail
    requires ParseItems(tail) == Ok((vs, rest))
    ensures ParseItems(s) == Ok(([v] + vs, rest))
  {
    assert SkipWhitespace("," + tail) == "," + tail;
    assert ("," + tail)[1..] == tail;
  }

  lemma SerializeItemsShape(items: seq<Value>, rest: string)
    requires |items| > 1
    ensures SerializeItems(items) + "]" + rest == Serialize(items[0]) + ("," + (SerializeItems(items[1..]) + "]" + rest))
  {
    Regroup(Serialize(items[0]), ",", SerializeItems(items[1..]), "]", rest);
  }

  lemma SerializeItemsSingle(items: seq<Value>, rest: string)
    requires |items| == 1
    ensures SerializeItems(items) + "]" + rest == Serialize(items[0]) + ("]" + rest)
  {
  }

  lemma SerializeItemsStart(items: seq<Value>, rest: string)
    requires items != []
    ensures |SerializeItems(items) + "]" + rest| > 0
    ensures !IsWhitespace((SerializeItems(items) + "]" + rest)[0])
  {
    SerializeStart(items[0]);
  }

  lemma {:induction false} ParseSerializedItems(items: seq<Value>, rest: string)
    requires items != []
    ensures ParseItems(SerializeItems(items) + "]" + rest) == Ok((items, rest))
    decreases items, 0
  {
    var s := SerializeItems(items) + "]" + rest;
    if |items| == 1 {
      SerializeItemsSingle(items, rest);
      ParseSerialized(items[0], "]" + rest);
      ParseItemsLast(s, items[0], rest);
      assert [items[0]] == items;
    } else {
      var tail := SerializeItems(items[1..]) + "]" + rest;
      SerializeItemsShape(items, rest);
      ParseSerialized(items[0], "," + tail);
      SerializeItemsStart(items[1..], rest);
      SkipNoWhitespace(tail);
      ParseSerializedItems(items[1..], rest);
      ParseItemsNext(s, items[0], tail, items[1..], rest);
      assert [items[0]] + items[1..] == items;
    }
  }

  lemma ParseMembersLast(s: string, m: Member, rest: string)
    requires ParseMember(s) == Ok((m, "}" + rest))
    ensures ParseMembers(s) == Ok(([m], rest))
  {
    assert SkipWhitespace("}" + rest) == "}" + rest;
    assert ("}" + rest)[1..] == rest;
  }

  lemma ParseMembersNext(s: string, m: Member, tail: string, ms: seq<Member>, rest: string)
    requires ParseMember(s) == Ok((m, "," + tail))
    requires SkipWhitespace(tail) == tail
    requires ParseMembers(tail) == Ok((ms, rest))
    ensures ParseMembers(s) == Ok(([m] + ms, rest))
  {
    assert SkipWhitespace("," + tail) == "," + tail;
    assert ("," + tail)[1..] == tail;
  }

  /** One step of ParseMember on text laid out as `"key":value`. */
  lemma ParseMemberOf(s: string, key: string, x: string, v: Value, after: string)
    requires |s| > 0 && s[0] == '"' && ParseStringBody(s[1..]) == Ok((key, ":" + x))
    requires SkipWhitespace(x) == x && ParseValue(x) == Ok((v, after))
    ensures ParseMember(s) == Ok((Member(key, v), after))
  {
    assert SkipWhitespace(":" + x) == ":" + x;
    assert (":" + x)[1..] == x;
  }

  /** The member `m` followed by `after` parses as `m`, leaving `after`. */
  lemma {:induction false} ParseSerializedMember(m: Member, after: string)
    requires |after| > 0 && (after[0] == ',' || after[0] == '}')
    ensures ParseMember(SerializeMember(m) + after) == Ok((m, after))
    decreases m, 0
  {
    var s := SerializeMember(m) + after;
    var x := Serialize(m.value) + after;
    assert s == "\"" + (Escape(m.key) + "\"" + (":" + x));
    assert s[1..] == Escape(m.key) + "\"" + (":" + x);
    ParseQuoted(m.key, ":" + x);
    SerializeStart(m.value);
    assert x[0] == Serialize(m.value)[0];
    ParseSerialized(m.value, after);
    ParseMemberOf(s, m.key, x, m.value, after);
  }

  lemma SerializeMembersStart(ms: seq<Member>)
    requires ms != []
    ensures |SerializeMembers(ms)| > 0 && SerializeMembers(ms)[0] == '"'
  {
  }

  lemma Associate(a: string, b: string, c: string)
    ensures a + b + c == a + (b + c)
  {
  }

  lemma Regroup(a: string, b: string, c: string, d: string, e: string)
    ensures a + b + c + d + e == a + (b + (c + d + e))
  {
  }

  lemma SerializeMembersShape(ms: seq<Member>, rest: string)
    requires |ms| > 1
    ensures SerializeMembers(ms) + "}" + rest == SerializeMember(ms[0]) + ("," + (SerializeMembers(ms[1..]) + "}" + rest))
  {
    Regroup(SerializeMember(ms[0]), ",", SerializeMembers(ms[1..]), "}", rest);
  }

  lemma SerializeMembersSingle(ms: seq<Member>, rest: string)
    requires |ms| == 1
    ensures SerializeMembers(ms) + "}" + rest == SerializeMember(ms[0]) + ("}" + rest)
  {
  }

  lemma {:induction false} ParseSerializedMembers(ms: seq<Member>, rest: string)
    requires ms != []
    ensures ParseMembers(SerializeMembers(ms) + "}" + rest) == Ok((ms, rest))
    decreases ms, 0
  {
    var m := ms[0];
    var s := SerializeMembers(ms) + "}" + rest;
    if |ms| == 1 {
      SerializeMembersSingle(ms, rest);
      ParseSerializedMember(m, "}" + rest);
      ParseMembersLast(s, m, rest);
      assert [m] == ms;
    } else {
      var tail := SerializeMembers(ms[1..]) + "}" + rest;
      SerializeMembersShape(ms, rest);
      SerializeMembersStart(ms[1..]);
      assert tail[0] == '"';
      SkipNoWhitespace(tail);
      ParseSerializedMember(m, "," + tail);
      ParseSerializedMembers(ms[1..], rest);
      ParseMembersNext(s, m, tail, ms[1..], rest);
      assert [m] + ms[1..] == ms;
    }
  }

  /** json.loads(json.dumps(v, separators=(',', ':'))) == v. */
  lemma ParseSerialize(v: Value)
    ensures Parse(Serialize(v)) == Ok(v)
  {
    SerializeStart(v);
    ParseSerialized(v, []);
    assert Serialize(v) + [] == Serialize(v);
  }
}
