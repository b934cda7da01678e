/**
 Canonical JSON: app/policy.py, `canonical_json`, as text without blanks, with sorted keys, and
 the part of json.loads that reads such text.  `IsPlain` excludes what has no such text: NaN,
 infinities, and strings without a UTF-8 encoding.
 */
module CanonicalJson {
  import opened Bytes
  import opened JsonValues
  import opened Strings
  import Utf8

  ghost predicate IsPlain(v: Json)
    decreases v
  {
    match v
    case JArr(items) => forall i :: 0 <= i < |items| ==> IsPlain(items[i])
    case JObj(fields) => forall k :: k in fields ==> IsPlain(fields[k])
    case JFloat(literal) => IsFloatLiteral(literal)
    case JNaN => false
    case JInfinity(_) => false
    case JIllFormed(_) => false
    case _ => true
  }

  // ---------------------------------------------------------------------- numbers

  function Digit(d: nat): (c: char)
    requires d < 10
  {
    '0' + d as char
  }

  predicate IsDigit(c: char) {
    '0' <= c <= '9'
  }

  function DigitValue(c: char): (d: nat)
    requires IsDigit(c)
    ensures d < 10 && Digit(d) == c
  {
    (c - '0') as nat
  }

  function Digits(n: nat): (s: string)
    ensures s != "" && IsDigit(s[0])
  {
    if n < 10 then [Digit(n)] else Digits(n / 10) + [Digit(n % 10)]
  }

  function PrintInt(n: int): (s: string) {
    if n < 0 then "-" + Digits(-n) else Digits(n)
  }

  /** A value read from the front of a text, and the text after it. */
  datatype Reading<T> = Failure | Got(value: T, rest: string)

  function ReadDigits(s: string, n: nat): (r: (nat, string))
    ensures |r.1| <= |s|
  {
    if s != "" && IsDigit(s[0]) then ReadDigits(s[1..], 10 * n + DigitValue(s[0])) else (n, s)
  }

  /** No leading zeros; a fraction or an exponent would make it another kind of number. */
  function ReadNat(s: string): (r: Reading<nat>)
    ensures r.Got? ==> |r.rest| < |s|
  {
    if s == "" || !IsDigit(s[0]) then Failure
    else
      var (n, rest) := if s[0] == '0' then (0, s[1..]) else ReadDigits(s[1..], DigitValue(s[0]));
      if rest != "" && (IsDigit(rest[0]) || rest[0] in ".eE") then Failure else Got(n, rest)
  }

  function ReadInt(s: string): (r: Reading<Json>)
    ensures r.Got? ==> |r.rest| < |s|
  {
    if s != "" && s[0] == '-' then
      match ReadNat(s[1..])
      case Got(n, rest) => var m: int := n; Got(JInt(-m), rest)
      case Failure => Failure
    else
      match ReadNat(s)
      case Got(n, rest) => Got(JInt(n), rest)
      case Failure => Failure
  }

  /** What may follow a value in canonical text. */
  predicate IsEnd(rest: string) {
    rest == "" || rest[0] in ",]}"
  }

  lemma {:induction false} ReadDigitsAfter(n: nat, rest: string)
    ensures ReadDigits(Digits(n) + rest, 0) == ReadDigits(rest, n)
  {
    if n < 10 {
      assert ([Digit(n)] + rest)[1..] == rest;
    } else {
      var last := [Digit(n % 10)];
      ReadDigitsAfter(n / 10, last + rest);
      assert Digits(n) + rest == Digits(n / 10) + (last + rest);
      assert (last + rest)[1..] == rest;
    }
  }

  lemma {:induction false} NoLeadingZero(n: nat)
    requires n > 0
    ensures Digits(n)[0] != '0'
  {
    if n >= 10 {
      NoLeadingZero(n / 10);
    }
  }

  lemma ReadPrintNat(n: nat, rest: string)
    requires IsEnd(rest)
    ensures ReadNat(Digits(n) + rest) == Got(n, rest)
  {
    var s := Digits(n) + rest;
    if n == 0 {
      assert s[1..] == rest;
    } else {
      NoLeadingZero(n);
      ReadDigitsAfter(n, rest);
    }
  }

  lemma ReadPrintInt(n: int, rest: string)
    requires IsEnd(rest)
    ensures ReadInt(PrintInt(n) + rest) == Got(JInt(n), rest)
  {
    var magnitude: nat := if n < 0 then -n else n;
    ReadPrintNat(magnitude, rest);
    hide Digits, ReadNat;
    assert n < 0 ==> (PrintInt(n) + rest)[1..] == Digits(magnitude) + rest;
  }

  // ------------------------------------------------------------------------ floats

  /** How many digits come first. */
  function DigitRun(s: string): (n: nat)
    ensures n <= |s|
  {
    if s == "" || !IsDigit(s[0]) then 0 else 1 + DigitRun(s[1..])
  }

  /** The length of an integer part: a sign, and digits without a leading zero; 0 if there is none. */
  function IntLength(s: string): (n: nat)
    ensures n <= |s|
  {
    var sign := if s != "" && s[0] == '-' then 1 else 0;
    var run := DigitRun(s[sign..]);
    if run == 0 then 0 else if s[sign] == '0' then sign + 1 else sign + run
  }

  function FractionLength(s: string): (n: nat)
    ensures n <= |s|
  {
    if s != "" && s[0] == '.' && DigitRun(s[1..]) > 0 then 1 + DigitRun(s[1..]) else 0
  }

  function ExponentLength(s: string): (n: nat)
    ensures n <= |s|
  {
    if s == "" || s[0] !in "eE" then 0
    else
      var sign := if |s| > 1 && s[1] in "+-" then 2 else 1;
      var run := DigitRun(s[sign..]);
      if run == 0 then 0 else sign + run
  }

  predicate IsNumberChar(c: char) {
    IsDigit(c) || c in "+-.eE"
  }

  /** Section 6 of RFC 8259, with a fraction or an exponent. */
  predicate IsFloatLiteral(t: string) {
    var n := IntLength(t);
    var f := FractionLength(t[n..]);
    var e := ExponentLength(t[n + f..]);
    && n > 0 && f + e > 0 && n + f + e == |t|
    && (forall i :: 0 <= i < |t| ==> IsNumberChar(t[i]))
    && exists i :: 0 <= i < |t| && t[i] in ".eE"
  }

  /** The characters a number can consist of, as far as they go. */
  function TokenLength(s: string): (n: nat)
    ensures n <= |s| && (s != "" && IsNumberChar(s[0]) ==> n > 0)
  {
    if s == "" || !IsNumberChar(s[0]) then 0 else 1 + TokenLength(s[1..])
  }

  function ReadNumber(s: string): (r: Reading<Json>)
    ensures r.Got? ==> |r.rest| < |s|
  {
    var token := s[..TokenLength(s)];
    if exists i :: 0 <= i < |token| && token[i] in ".eE" then
      if IsFloatLiteral(token) then Got(JFloat(token), s[|token|..]) else Failure
    else ReadInt(s)
  }

  lemma {:induction false} TokenBefore(t: string, rest: string)
    requires IsEnd(rest) && forall i :: 0 <= i < |t| ==> IsNumberChar(t[i])
    ensures TokenLength(t + rest) == |t|
  {
    if t == "" {
      assert t + rest == rest;
    } else {
      assert (t + rest)[1..] == t[1..] + rest;
      TokenBefore(t[1..], rest);
    }
  }

  lemma ReadPrintFloat(t: string, rest: string)
    requires IsFloatLiteral(t) && IsEnd(rest)
    ensures ReadNumber(t + rest) == Got(JFloat(t), rest)
  {
    TokenBefore(t, rest);
    assert (t + rest)[..|t|] == t && (t + rest)[|t|..] == rest;
  }

  lemma {:induction false} DigitsOnly(n: nat)
    ensures forall i :: 0 <= i < |Digits(n)| ==> IsDigit(Digits(n)[i])
  {
    if n >= 10 {
      DigitsOnly(n / 10);
    }
  }

  lemma IntChars(n: int)
    ensures forall i :: 0 <= i < |PrintInt(n)| ==> IsNumberChar(PrintInt(n)[i]) && PrintInt(n)[i] !in ".eE"
  {
    DigitsOnly(if n < 0 then -n else n);
  }

  lemma ReadPrintNumber(n: int, rest: string)
    requires IsEnd(rest)
    ensures ReadNumber(PrintInt(n) + rest) == Got(JInt(n), rest)
  {
    hide ReadInt, PrintInt, TokenLength, IsFloatLiteral, IsNumberChar;
    var t := PrintInt(n);
    IntChars(n);
    TokenBefore(t, rest);
    ReadPrintInt(n, rest);
    assert (t + rest)[..|t|] == t;
  }

  // ---------------------------------------------------------------------- strings

  function HexDigit(d: nat): (c: char)
    requires d < 16
  {
    if d < 10 then '0' + d as char else 'a' + (d - 10) as char
  }

  function HexValue(c: char): (d: Option<nat>)
    ensures d.Some? ==> d.value < 16
  {
    if '0' <= c <= '9' then Some((c - '0') as nat)
    else if 'a' <= c <= 'f' then Some((c - 'a') as nat + 10)
    else if 'A' <= c <= 'F' then Some((c - 'A') as nat + 10)
    else None
  }

  /** How one character is printed inside a string. */
  function Escape(c: char): (s: string) {
    if c == '"' then "\\\""
    else if c == '\\' then "\\\\"
    else if c == '\n' then "\\n"
    else if c == '\r' then "\\r"
    else if c == '\t' then "\\t"
    else if c == 8 as char then "\\b"
    else if c == 12 as char then "\\f"
    else if c < ' ' then "\\u00" + [HexDigit(c as nat / 16), HexDigit(c as nat % 16)]
    else [c]
  }

  function EscapeAll(text: string): (s: string) {
    if text == "" then "" else Escape(text[0]) + EscapeAll(text[1..])
  }

  function PrintString(text: string): (s: string) {
    "\"" + EscapeAll(text) + "\""
  }

  /** One character of a string: an escape, or any character that is not a control character. */
  function ReadChar(s: string): (r: Reading<char>)
    requires s != ""
    ensures r.Got? ==> |r.rest| < |s|
  {
    if s[0] < ' ' then Failure
    else if s[0] != '\\' then Got(s[0], s[1..])
    else if |s| < 2 then Failure
    else
      match s[1]
      case '"' => Got('"', s[2..])
      case '\\' => Got('\\', s[2..])
      case '/' => Got('/', s[2..])
      case 'n' => Got('\n', s[2..])
      case 'r' => Got('\r', s[2..])
      case 't' => Got('\t', s[2..])
      case 'b' => Got(8 as char, s[2..])
      case 'f' => Got(12 as char, s[2..])
      case 'u' => ReadUnicode(s)
      case _ => Failure
  }

  /** A \u escape; one half of a surrogate pair is not read here. */
  function ReadUnicode(s: string): (r: Reading<char>)
    requires |s| >= 2
    ensures r.Got? ==> |r.rest| < |s|
  {
    if |s| < 6 then Failure
    else
      match (HexValue(s[2]), HexValue(s[3]), HexValue(s[4]), HexValue(s[5]))
      case (Some(a), Some(b), Some(c), Some(d)) =>
        var code := a * 4096 + b * 256 + c * 16 + d;
        if 0xD800 <= code < 0xE000 then Failure else Got(code as char, s[6..])
      case _ => Failure
  }

  /** The characters up to the closing quote. */
  function ReadChars(s: string): (r: Reading<string>)
    ensures r.Got? ==> |r.rest| < |s|
    decreases |s|
  {
    if s == "" then Failure
    else if s[0] == '"' then Got("", s[1..])
    else
      match ReadChar(s)
      case Failure => Failure
      case Got(c, rest) =>
        match ReadChars(rest)
        case Failure => Failure
        case Got(text, end) => Got([c] + text, end)
  }

  lemma ReadControl(c: char, rest: string)
    requires c < ' '
    ensures ReadUnicode("\\u00" + [HexDigit(c as nat / 16), HexDigit(c as nat % 16)] + rest) == Got(c, rest)
  {
    var high, low := c as nat / 16, c as nat % 16;
    var s := "\\u00" + [HexDigit(high), HexDigit(low)] + rest;
    assert HexValue(s[2]) == Some(0) && HexValue(s[3]) == Some(0);
    assert s[4] == HexDigit(high) && s[5] == HexDigit(low);
    assert HexValue(s[4]) == Some(high) && HexValue(s[5]) == Some(low);
    assert s[6..] == rest;
  }

  lemma ReadEscape(c: char, rest: string)
    ensures Escape(c) != "" && Escape(c)[0] != '"'
    ensures ReadChar(Escape(c) + rest) == Got(c, rest)
  {
    var s := Escape(c) + rest;
    if |Escape(c)| == 1 {
      assert s[1..] == rest;
    } else if |Escape(c)| == 2 {
      assert s[2..] == rest;
    } else {
      assert c < ' ' && Escape(c) == "\\u00" + [HexDigit(c as nat / 16), HexDigit(c as nat % 16)];
      ReadControl(c, rest);
      hide ReadUnicode;
      assert |s| >= 2 && s[0] == '\\' && s[1] == 'u';
      assert ReadChar(s) == ReadUnicode(s);
    }
  }

  lemma {:induction false} ReadOneMore(c: char, tail: string, text: string, rest: string)
    requires ReadChars(tail) == Got(text, rest)
    ensures ReadChars(Escape(c) + tail) == Got([c] + text, rest)
  {
    ReadEscape(c, tail);
    hide Escape, ReadChar;
  }

  lemma {:induction false} ReadPrintString(text: string, rest: string)
    ensures ReadChars(EscapeAll(text) + "\"" + rest) == Got(text, rest)
  {
    if text == "" {
      assert (EscapeAll(text) + "\"" + rest)[1..] == rest;
    } else {
      hide ReadChars, Escape;
      var tail := EscapeAll(text[1..]) + "\"" + rest;
      assert EscapeAll(text) + "\"" + rest == Escape(text[0]) + tail;
      ReadPrintString(text[1..], rest);
      ReadOneMore(text[0], tail, text[1..], rest);
      assert [text[0]] + text[1..] == text;
    }
  }

  // ------------------------------------------------------------------------ values

  ghost function Listed(keys: set<string>): (list: seq<string>)
    ensures forall k :: k in list <==> k in keys
  {
    if keys == {} then []
    else var k :| k in keys; [k] + Listed(keys - {k})
  }

  /** The keys of an object in the order they are printed. */
  ghost function SortedKeys(fields: map<string, Json>): (keys: seq<string>)
    ensures Increasing(keys) && forall k :: k in keys <==> k in fields
  {
    SortKeys(Listed(fields.Keys))
  }

  ghost function Print(v: Json): (s: string)
    decreases v, 2, 0
  {
    match v
    case JNull => "null"
    case JBool(b) => if b then "true" else "false"
    case JInt(n) => PrintInt(n)
    case JFloat(literal) => literal
    case JStr(text) => PrintString(text)
    case JArr(items) => "[" + PrintItems(v, 0) + "]"
    case JObj(fields) => "{" + PrintMembers(v, SortedKeys(fields)) + "}"
    case _ => ""
  }

  /** The items of an array from index `i` on, separated by commas. */
  ghost function PrintItems(v: Json, i: nat): (s: string)
    requires v.JArr? && i <= |v.items|
    decreases v, 1, |v.items| - i
  {
    if i == |v.items| then ""
    else if i + 1 == |v.items| then Print(v.items[i])
    else Print(v.items[i]) + "," + PrintItems(v, i + 1)
  }

  ghost function PrintMember(v: Json, key: string): (s: string)
    requires v.JObj? && key in v.fields
    decreases v, 0, 0
  {
    PrintString(key) + ":" + Print(v.fields[key])
  }

  ghost function PrintMembers(v: Json, keys: seq<string>): (s: string)
    requires v.JObj? && forall k :: k in keys ==> k in v.fields
    decreases v, 1, |keys|
  {
    if keys == [] then ""
    else if |keys| == 1 then PrintMember(v, keys[0])
    else PrintMember(v, keys[0]) + "," + PrintMembers(v, keys[1..])
  }

  function ReadValue(s: string): (r: Reading<Json>)
    ensures r.Got? ==> |r.rest| < |s|
    decreases |s|, 1
  {
    if s == "" then Failure
    else if s[0] == '"' then
      match ReadChars(s[1..])
      case Got(text, rest) => Got(JStr(text), rest)
      case Failure => Failure
    else if s[0] == '[' then
      if |s| > 1 && s[1] == ']' then Got(JArr([]), s[2..]) else ReadItems(s[1..], [])
    else if s[0] == '{' then
      if |s| > 1 && s[1] == '}' then Got(JObj(map[]), s[2..]) else ReadMembers(s[1..], map[])
    else if "null" <= s then Got(JNull, s[4..])
    else if "true" <= s then Got(JBool(true), s[4..])
    else if "false" <= s then Got(JBool(false), s[5..])
    else ReadNumber(s)
  }

  /** The items of an array that has at least one more. */
  function ReadItems(s: string, before: seq<Json>): (r: Reading<Json>)
    ensures r.Got? ==> |r.rest| < |s|
    decreases |s|, 2
  {
    match ReadValue(s)
    case Failure => Failure
    case Got(v, rest) =>
      if rest == "" then Failure
      else if rest[0] == ',' then ReadItems(rest[1..], before + [v])
      else if rest[0] == ']' then Got(JArr(before + [v]), rest[1..])
      else Failure
  }

  /** A key, a colon and a value. */
  function ReadMember(s: string): (r: Reading<(string, Json)>)
    ensures r.Got? ==> |r.rest| < |s|
    decreases |s|, 1
  {
    if s == "" || s[0] != '"' then Failure
    else
      match ReadChars(s[1..])
      case Failure => Failure
      case Got(key, rest) =>
        if rest == "" || rest[0] != ':' then Failure
        else
          match ReadValue(rest[1..])
          case Failure => Failure
          case Got(v, end) => Got((key, v), end)
  }

  /** The members of an object that has at least one more; the last of equal keys counts. */
  function ReadMembers(s: string, before: map<string, Json>): (r: Reading<Json>)
    ensures r.Got? ==> |r.rest| < |s|
    decreases |s|, 2
  {
    match ReadMember(s)
    case Failure => Failure
    case Got(m, rest) =>
      if rest == "" then Failure
      else if rest[0] == ',' then ReadMembers(rest[1..], before[m.0 := m.1])
      else if rest[0] == '}' then Got(JObj(before[m.0 := m.1]), rest[1..])
      else Failure
  }

  function Read(text: string): (v: Option<Json>) {
    match ReadValue(text)
    case Got(v, rest) => if rest == "" then Some(v) else None
    case Failure => None
  }

  lemma PrintOneMember(key: string, value: Json)
    ensures Print(JObj(map[key := value])) == "{" + PrintString(key) + ":" + Print(value) + "}"
  {
    var v := JObj(map[key := value]);
    var keys := SortedKeys(v.fields);
    assert key in keys;
    if |keys| > 1 {
      assert keys[0] in keys && keys[1] in keys;
      LessTotal(keys[0], keys[1]);
    }
    assert keys == [key];
    assert PrintMembers(v, keys) == PrintMember(v, key);
  }

  // ------------------------------------------------------------------- the round trip

  lemma {:induction false} ReadPrintValue(v: Json, rest: string)
    requires IsPlain(v) && IsEnd(rest)
    ensures ReadValue(Print(v) + rest) == Got(v, rest)
    decreases v, 3, 0
  {
    if v.JArr? {
      ReadPrintArray(v, rest);
    } else if v.JObj? {
      ReadPrintObject(v, rest);
    } else {
      ReadPrintLeaf(v, rest);
    }
  }

  lemma ReadPrintLeaf(v: Json, rest: string)
    requires IsPlain(v) && IsEnd(rest) && !v.JArr? && !v.JObj?
    ensures ReadValue(Print(v) + rest) == Got(v, rest)
  {
    match v
    case JNull => ReadWord("null", rest);
    case JBool(b) => ReadWord(if b then "true" else "false", rest);
    case JInt(n) =>
      ReadPrintNumber(n, rest);
      ReadNumberValue(PrintInt(n) + rest);
    case JFloat(literal) =>
      ReadPrintFloat(literal, rest);
      assert IsNumberChar(literal[0]);
      ReadNumberValue(literal + rest);
    case JStr(text) => ReadText(text, rest);
  }

  lemma ReadWord(word: string, rest: string)
    requires word in ["null", "true", "false"]
    ensures ReadValue(word + rest) == Got(if word == "null" then JNull else JBool(word == "true"), rest)
  {
    var s := word + rest;
    assert s[|word|..] == rest && word <= s && s[0] == word[0];
    hide ReadNumber, ReadMembers, ReadItems, ReadChars;
  }

  lemma ReadNumberValue(s: string)
    requires s != "" && IsNumberChar(s[0])
    ensures ReadValue(s) == ReadNumber(s)
  {
    hide ReadNumber, ReadMembers, ReadItems, ReadChars;
  }

  lemma ReadText(text: string, rest: string)
    ensures ReadValue(PrintString(text) + rest) == Got(JStr(text), rest)
  {
    var s := PrintString(text) + rest;
    ReadPrintString(text, rest);
    hide EscapeAll, ReadChars;
    assert s[1..] == EscapeAll(text) + "\"" + rest;
  }

  lemma OpenArray(inner: string, rest: string)
    requires inner != "" && inner[0] != ']'
    ensures ReadValue("[" + inner + "]" + rest) == ReadItems(inner + "]" + rest, [])
  {
    var s := "[" + inner + "]" + rest;
    assert s[1..] == inner + "]" + rest;
    hide ReadItems, ReadMembers, ReadNumber, ReadChars;
  }

  lemma OpenObject(inner: string, rest: string)
    requires inner != "" && inner[0] != '}'
    ensures ReadValue("{" + inner + "}" + rest) == ReadMembers(inner + "}" + rest, map[])
  {
    var s := "{" + inner + "}" + rest;
    assert s[1..] == inner + "}" + rest;
    hide ReadItems, ReadMembers, ReadNumber, ReadChars;
  }

  lemma {:induction false} ReadPrintArray(v: Json, rest: string)
    requires IsPlain(v) && IsEnd(rest) && v.JArr?
    ensures ReadValue(Print(v) + rest) == Got(v, rest)
    decreases v, 2, 0
  {
    if v.items == [] {
      EmptyArray(v, rest);
    } else {
      ItemsStart(v);
      ReadPrintItems(v, 0, rest);
      OpenArray(PrintItems(v, 0), rest);
      assert Print(v) == "[" + PrintItems(v, 0) + "]" && v.items[..0] == [];
      hide PrintItems, ReadItems, ReadValue, Print, IsPlain;
    }
  }

  lemma EmptyArray(v: Json, rest: string)
    requires v == JArr([])
    ensures ReadValue(Print(v) + rest) == Got(v, rest)
  {
    var s := Print(v) + rest;
    assert PrintItems(v, 0) == "" && s == "[]" + rest;
    assert s[2..] == rest;
    hide ReadItems, ReadMembers, ReadNumber, ReadChars;
  }

  lemma ItemsStart(v: Json)
    requires IsPlain(v) && v.JArr? && v.items != []
    ensures PrintItems(v, 0) != "" && PrintItems(v, 0)[0] != ']'
  {
    PrintStart(v.items[0]);
    hide Print, IsPlain;
  }

  lemma {:induction false} ReadPrintObject(v: Json, rest: string)
    requires IsPlain(v) && IsEnd(rest) && v.JObj?
    ensures ReadValue(Print(v) + rest) == Got(v, rest)
    decreases v, 2, 0
  {
    hide PrintMembers, ReadMembers, ReadValue, IsPlain;
    var keys := SortedKeys(v.fields);
    if keys == [] {
      EmptyObject(v, rest);
    } else {
      ReadPrintMembers(v, keys, map[], rest);
      AddsEverything(v.fields);
      MembersStart(v, keys);
      OpenObject(PrintMembers(v, keys), rest);
      hide SortedKeys, AddAll;
      assert Print(v) == "{" + PrintMembers(v, keys) + "}";
    }
  }

  lemma AddsEverything(fields: map<string, Json>)
    ensures AddAll(map[], fields, SortedKeys(fields)) == fields
  {
    AddsAll(map[], fields, SortedKeys(fields));
  }

  lemma EmptyObject(v: Json, rest: string)
    requires v.JObj? && SortedKeys(v.fields) == []
    ensures ReadValue(Print(v) + rest) == Got(v, rest)
  {
    var s := Print(v) + rest;
    assert v.fields == map[];
    assert PrintMembers(v, SortedKeys(v.fields)) == "" && s == "{}" + rest;
    assert s[2..] == rest;
    hide ReadItems, ReadMembers, ReadNumber, ReadChars;
  }

  lemma MembersStart(v: Json, keys: seq<string>)
    requires v.JObj? && keys != [] && forall k :: k in keys ==> k in v.fields
    ensures PrintMembers(v, keys) != "" && PrintMembers(v, keys)[0] != '}'
  {
    hide Print, EscapeAll;
    assert PrintMember(v, keys[0])[0] == '"';
  }

  lemma PrintStart(v: Json)
    requires IsPlain(v)
    ensures Print(v) != "" && Print(v)[0] != ']'
  {
  }

  lemma {:induction false} LastItem(item: string, v: Json, before: seq<Json>, rest: string)
    requires ReadValue(item + ("]" + rest)) == Got(v, "]" + rest)
    ensures ReadItems(item + "]" + rest, before) == Got(JArr(before + [v]), rest)
  {
    assert item + "]" + rest == item + ("]" + rest);
    assert ("]" + rest)[1..] == rest;
    hide ReadValue;
  }

  lemma {:induction false} NextItem(item: string, v: Json, before: seq<Json>, more: string)
    requires ReadValue(item + ("," + more)) == Got(v, "," + more)
    ensures ReadItems(item + ("," + more), before) == ReadItems(more, before + [v])
  {
    assert ("," + more)[1..] == more;
    hide ReadValue;
  }

  lemma ItemsStep(v: Json, i: nat)
    requires v.JArr? && i < |v.items|
    ensures PrintItems(v, i) ==
            if i + 1 == |v.items| then Print(v.items[i]) else Print(v.items[i]) + "," + PrintItems(v, i + 1)
  {
    hide Print;
  }

  lemma {:induction false} ReadPrintItems(v: Json, i: nat, rest: string)
    requires IsPlain(v) && v.JArr? && i < |v.items| && IsEnd(rest)
    ensures ReadItems(PrintItems(v, i) + "]" + rest, v.items[..i]) == Got(v, rest)
    decreases v, 1, |v.items| - i
  {
    hide Print, PrintItems, IsPlain, ReadValue, ReadItems;
    var item, before := v.items[i], v.items[..i];
    PlainItem(v, i);
    ItemsStep(v, i);
    assert before + [item] == v.items[..i + 1];
    if i + 1 == |v.items| {
      ReadPrintValue(item, "]" + rest);
      LastItem(Print(item), item, before, rest);
      assert v.items[..i + 1] == v.items;
    } else {
      var more := PrintItems(v, i + 1) + "]" + rest;
      ReadPrintValue(item, "," + more);
      ReadPrintItems(v, i + 1, rest);
      NextItem(Print(item), item, before, more);
      CommaGlue(Print(item), PrintItems(v, i + 1), rest);
    }
  }

  lemma PlainItem(v: Json, i: nat)
    requires IsPlain(v) && v.JArr? && i < |v.items|
    ensures IsPlain(v.items[i])
  {
  }

  lemma CommaGlue(first: string, others: string, rest: string)
    ensures (first + "," + others) + "]" + rest == first + ("," + (others + "]" + rest))
  {
  }

  lemma MemberText(key: string, value: string, v: Json, rest: string)
    requires ReadValue(value + rest) == Got(v, rest)
    ensures ReadMember(PrintString(key) + ":" + value + rest) == Got((key, v), rest)
  {
    var after := ":" + (value + rest);
    ReadPrintString(key, after);
    hide EscapeAll, ReadChars, ReadValue;
    var s := PrintString(key) + ":" + value + rest;
    assert s[1..] == EscapeAll(key) + "\"" + after;
    assert after[1..] == value + rest;
  }

  lemma {:induction false} ReadPrintMember(v: Json, key: string, rest: string)
    requires IsPlain(v) && v.JObj? && key in v.fields && IsEnd(rest)
    ensures ReadMember(PrintMember(v, key) + rest) == Got((key, v.fields[key]), rest)
    decreases v, 0
  {
    var value := Print(v.fields[key]);
    ReadPrintValue(v.fields[key], rest);
    MemberText(key, value, v.fields[key], rest);
    assert PrintMember(v, key) == PrintString(key) + ":" + value;
    hide IsPlain, ReadMember, ReadValue, Print, PrintMember;
  }

  /** The members of `source` under some keys, added one by one. */
  function AddAll(before: map<string, Json>, source: map<string, Json>, keys: seq<string>): (fields: map<string, Json>)
    requires forall k :: k in keys ==> k in source
    decreases |keys|
  {
    if keys == [] then before else AddAll(before[keys[0] := source[keys[0]]], source, keys[1..])
  }

  lemma {:induction false} AddsAll(before: map<string, Json>, source: map<string, Json>, keys: seq<string>)
    requires forall k :: k in keys ==> k in source
    ensures var fields := AddAll(before, source, keys);
            && (forall k :: k in fields <==> k in before || k in keys)
            && forall k :: k in fields ==> fields[k] == if k in keys then source[k] else before[k]
    decreases |keys|
  {
    if keys != [] {
      AddsAll(before[keys[0] := source[keys[0]]], source, keys[1..]);
    }
  }

  lemma {:induction false} ReadPrintMembers(v: Json, keys: seq<string>, before: map<string, Json>, rest: string)
    requires IsPlain(v) && v.JObj? && keys != [] && (forall k :: k in keys ==> k in v.fields) && IsEnd(rest)
    ensures ReadMembers(PrintMembers(v, keys) + "}" + rest, before) == Got(JObj(AddAll(before, v.fields, keys)), rest)
    decreases v, 1, |keys|
  {
    hide PrintMembers, PrintMember, ReadMembers, ReadMember, AddAll, IsPlain, Print;
    var key, tail := keys[0], keys[1..];
    var next := before[key := v.fields[key]];
    AddStep(before, v.fields, keys);
    PrintStep(v, keys);
    if |keys| == 1 {
      ReadPrintMember(v, key, "}" + rest);
      LastMember(PrintMember(v, key), rest, before);
    } else {
      var more := PrintMembers(v, tail) + "}" + rest;
      ReadPrintMember(v, key, "," + more);
      ReadPrintMembers(v, tail, next, rest);
      NextMember(PrintMember(v, key), more, before);
      assert PrintMembers(v, keys) + "}" + rest == PrintMember(v, key) + ("," + more);
    }
  }

  lemma AddStep(before: map<string, Json>, source: map<string, Json>, keys: seq<string>)
    requires keys != [] && forall k :: k in keys ==> k in source
    ensures var next := before[keys[0] := source[keys[0]]];
            && AddAll(before, source, keys) == AddAll(next, source, keys[1..])
            && (|keys| == 1 ==> AddAll(before, source, keys) == next)
  {
  }

  lemma PrintStep(v: Json, keys: seq<string>)
    requires v.JObj? && keys != [] && forall k :: k in keys ==> k in v.fields
    ensures PrintMembers(v, keys) ==
            if |keys| == 1 then PrintMember(v, keys[0]) else PrintMember(v, keys[0]) + "," + PrintMembers(v, keys[1..])
  {
    hide PrintMember;
  }

  lemma LastMember(member: string, rest: string, before: map<string, Json>)
    requires ReadMember(member + ("}" + rest)).Got? && ReadMember(member + ("}" + rest)).rest == "}" + rest
    ensures var m := ReadMember(member + ("}" + rest)).value;
            ReadMembers(member + "}" + rest, before) == Got(JObj(before[m.0 := m.1]), rest)
  {
    assert member + "}" + rest == member + ("}" + rest);
    assert ("}" + rest)[1..] == rest;
    hide ReadMember;
  }

  lemma NextMember(member: string, more: string, before: map<string, Json>)
    requires ReadMember(member + ("," + more)).Got? && ReadMember(member + ("," + more)).rest == "," + more
    ensures var m := ReadMember(member + ("," + more)).value;
            ReadMembers(member + ("," + more), before) == ReadMembers(more, before[m.0 := m.1])
  {
    assert ("," + more)[1..] == more;
    hide ReadMember;
  }

  /** Reading canonical JSON gives the value back. */
  lemma ReadPrint(v: Json)
    requires IsPlain(v)
    ensures Read(Print(v)) == Some(v)
  {
    ReadPrintValue(v, "");
    assert Print(v) + "" == Print(v);
  }

  /** Different values have different canonical JSON. */
  lemma PrintInjective(v: Json, w: Json)
    requires IsPlain(v) && IsPlain(w) && Print(v) == Print(w)
    ensures v == w
  {
    ReadPrint(v);
    ReadPrint(w);
  }

  // ------------------------------------------------------------- the text and its octets

  /** Canonical JSON is one line: every control character inside it is escaped. */
  ghost predicate IsPrintable(s: string) {
    forall i :: 0 <= i < |s| ==> s[i] >= ' '
  }

  lemma PrintableParts(a: string, b: string)
    ensures IsPrintable(a + b) <==> IsPrintable(a) && IsPrintable(b)
  {
    if IsPrintable(a + b) {
      assert forall i :: 0 <= i < |a| ==> a[i] == (a + b)[i];
      assert forall i :: 0 <= i < |b| ==> b[i] == (a + b)[|a| + i];
    }
  }

  lemma {:induction false} DigitsPrintable(n: nat)
    ensures IsPrintable(Digits(n))
  {
    if n >= 10 {
      DigitsPrintable(n / 10);
    }
  }

  lemma {:induction false} StringPrintable(text: string)
    ensures IsPrintable(PrintString(text))
  {
    EscapedPrintable(text);
    PrintableParts("\"", EscapeAll(text));
    PrintableParts("\"" + EscapeAll(text), "\"");
  }

  lemma {:induction false} EscapedPrintable(text: string)
    ensures IsPrintable(EscapeAll(text))
  {
    if text != "" {
      EscapedPrintable(text[1..]);
      PrintableParts(Escape(text[0]), EscapeAll(text[1..]));
    }
  }

  lemma {:induction false} PrintPrintable(v: Json)
    requires IsPlain(v)
    ensures IsPrintable(Print(v))
    decreases v, 2, 0
  {
    hide PrintInt, PrintString, PrintItems, PrintMembers, IsPrintable, IsFloatLiteral, SortedKeys;
    WordsPrintable();
    match v
    case JInt(n) => IntPrintable(n);
    case JFloat(literal) => FloatPrintable(literal);
    case JStr(text) => StringPrintable(text);
    case JArr(items) =>
      ItemsPrintable(v, 0);
      Enclosed("[", PrintItems(v, 0), "]");
    case JObj(fields) =>
      MembersPrintable(v, SortedKeys(fields));
      Enclosed("{", PrintMembers(v, SortedKeys(fields)), "}");
    case _ =>
  }

  lemma WordsPrintable()
    ensures IsPrintable("null") && IsPrintable("true") && IsPrintable("false")
    ensures IsPrintable("[") && IsPrintable("]") && IsPrintable("{") && IsPrintable("}")
  {
  }

  lemma Enclosed(a: string, b: string, c: string)
    requires IsPrintable(a) && IsPrintable(b) && IsPrintable(c)
    ensures IsPrintable(a + b + c)
  {
    PrintableParts(a, b);
    PrintableParts(a + b, c);
  }

  lemma IntPrintable(n: int)
    ensures IsPrintable(PrintInt(n))
  {
    DigitsPrintable(if n < 0 then -n else n);
  }

  lemma FloatPrintable(literal: string)
    requires IsFloatLiteral(literal)
    ensures IsPrintable(literal)
  {
    assert forall i :: 0 <= i < |literal| ==> IsNumberChar(literal[i]);
  }

  lemma {:induction false} ItemsPrintable(v: Json, i: nat)
    requires IsPlain(v) && v.JArr? && i <= |v.items|
    ensures IsPrintable(PrintItems(v, i))
    decreases v, 1, |v.items| - i
  {
    hide Print;
    if i < |v.items| {
      PrintPrintable(v.items[i]);
      ItemsPrintable(v, i + 1);
    }
  }

  lemma {:induction false} MembersPrintable(v: Json, keys: seq<string>)
    requires IsPlain(v) && v.JObj? && forall k :: k in keys ==> k in v.fields
    ensures IsPrintable(PrintMembers(v, keys))
    decreases v, 1, |keys|
  {
    hide Print;
    if keys != [] {
      StringPrintable(keys[0]);
      PrintPrintable(v.fields[keys[0]]);
      MembersPrintable(v, keys[1..]);
      hide PrintString;
      assert IsPrintable(PrintMember(v, keys[0]));
    }
  }

  /** The code points of a text. */
  function Scalars(s: string): (cs: seq<Utf8.Scalar>)
    ensures |cs| == |s|
  {
    seq(|s|, i requires 0 <= i < |s| => s[i] as int)
  }

  function Chars(cs: seq<Utf8.Scalar>): (s: string)
    ensures |s| == |cs|
  {
    seq(|cs|, i requires 0 <= i < |cs| => cs[i] as char)
  }

  ghost function CanonicalBytes(v: Json): (raw: seq<byte>) {
    Utf8.EncodeAll(Scalars(Print(v)))
  }

  function LoadBytes(raw: seq<byte>): (v: Option<Json>) {
    if Utf8.WellFormed(raw) then Read(Chars(Utf8.Decode(raw))) else None
  }

  lemma LoadCanonical(v: Json)
    requires IsPlain(v)
    ensures LoadBytes(CanonicalBytes(v)) == Some(v)
  {
    var s := Print(v);
    Utf8.EncodeAllRoundTrips(Scalars(s));
    assert Chars(Scalars(s)) == s;
    ReadPrint(v);
  }

  // ------------------------------------------------------------------------- lengths

  /** The number of octets a text takes in UTF-8. */
  function Length(s: string): (n: nat) {
    |Utf8.EncodeAll(Scalars(s))|
  }

  lemma {:induction false} LengthAppend(s: string, t: string)
    ensures Length(s + t) == Length(s) + Length(t)
  {
    if s == "" {
      assert s + t == t;
    } else {
      LengthAppend(s[1..], t);
      assert Scalars(s + t)[1..] == Scalars(s[1..] + t) && Scalars(s)[1..] == Scalars(s[1..]);
      assert Scalars(s + t)[0] == Scalars(s)[0];
    }
  }

  lemma MemberLength(v: Json, key: string)
    requires v.JObj? && key in v.fields
    ensures Length(PrintMember(v, key)) == Length(PrintString(key)) + Length(":") + Length(Print(v.fields[key]))
  {
    hide Print, PrintString, Length;
    LengthAppend(PrintString(key) + ":", Print(v.fields[key]));
    LengthAppend(PrintString(key), ":");
  }

  /** What the members take: each its own text, and commas between them. */
  lemma MembersLength(v: Json, keys: seq<string>)
    requires v.JObj? && forall k :: k in keys ==> k in v.fields
    requires keys != []
    ensures Length(PrintMembers(v, keys)) ==
              Length(PrintMember(v, keys[0])) + if |keys| == 1 then 0 else Length(",") + Length(PrintMembers(v, keys[1..]))
  {
    hide PrintMember, Length;
    if |keys| > 1 {
      LengthAppend(PrintMember(v, keys[0]) + ",", PrintMembers(v, keys[1..]));
      LengthAppend(PrintMember(v, keys[0]), ",");
    }
  }

  /** Another value under one key changes the length by the difference of the two values' lengths. */
  lemma {:induction false} MembersUpdate(v: Json, key: string, value: Json, keys: seq<string>)
    requires v.JObj? && key in v.fields && (forall k :: k in keys ==> k in v.fields) && Increasing(keys)
    ensures var w := JObj(v.fields[key := value]);
            Length(PrintMembers(w, keys)) + (if key in keys then Length(Print(v.fields[key])) else 0) ==
            Length(PrintMembers(v, keys)) + (if key in keys then Length(Print(value)) else 0)
    decreases |keys|
  {
    hide Print, PrintString, PrintMember, Length;
    var w := JObj(v.fields[key := value]);
    if keys == [] {
      assert PrintMembers(w, keys) == PrintMembers(v, keys) == "";
    } else {
      hide PrintMembers;
      DistinctHead(keys);
      MembersLength(v, keys);
      MembersLength(w, keys);
      MemberLength(v, keys[0]);
      MemberLength(w, keys[0]);
      if |keys| > 1 {
        MembersUpdate(v, key, value, keys[1..]);
      }
    }
  }

  lemma DistinctHead(keys: seq<string>)
    requires keys != [] && Increasing(keys)
    ensures Increasing(keys[1..]) && keys[0] !in keys[1..]
  {
    forall j | 0 < j < |keys| ensures keys[j] != keys[0] {
      LessTotal(keys[0], keys[j]);
    }
  }

  lemma UpdateLength(fields: map<string, Json>, key: string, value: Json)
    requires key in fields
    ensures |CanonicalBytes(JObj(fields[key := value]))| + Length(Print(fields[key])) ==
            |CanonicalBytes(JObj(fields))| + Length(Print(value))
  {
    var v, w := JObj(fields), JObj(fields[key := value]);
    assert w.fields.Keys == fields.Keys;
    var keys := SortedKeys(fields);
    assert SortedKeys(w.fields) == keys;
    assert Print(v) == "{" + PrintMembers(v, keys) + "}" && Print(w) == "{" + PrintMembers(w, keys) + "}";
    MembersUpdate(v, key, value, keys);
    ObjectLength(PrintMembers(v, keys));
    ObjectLength(PrintMembers(w, keys));
    hide Print, PrintMembers, SortedKeys;
  }

  lemma ObjectLength(members: string)
    ensures Length("{" + members + "}") == Length("{") + Length(members) + Length("}")
  {
    hide Length;
    LengthAppend("{" + members, "}");
    LengthAppend("{", members);
  }
}
