/** The strict JSON parser of the request boundary, and its round trip with the printer. */
module JsonParser {
  import opened Prelude
  import opened CanonicalJson

  datatype ParseCode = DuplicateKey | FloatNotAllowed | NonCanonical

  /** A value read from the front of a text, and what is left of it. */
  datatype Parsed<T> = Parsed(value: T, rest: string) | Failed(code: ParseCode)

  predicate Space(c: char) { c == ' ' || c == '\t' || c == '\n' || c == '\r' }

  predicate IsDigit(c: char) { '0' <= c <= '9' }

  function SkipSpace(s: string): (r: string)
    ensures |r| <= |s|
  {
    if s != "" && Space(s[0]) then SkipSpace(s[1..]) else s
  }

  // ----- Numbers --------------------------------------------------------------------------------------------

  function DigitRun(s: string): (n: nat)
    ensures n <= |s| && forall i | 0 <= i < n :: IsDigit(s[i])
  {
    if s != "" && IsDigit(s[0]) then 1 + DigitRun(s[1..]) else 0
  }

  function NatOf(s: string): nat
    requires forall i | 0 <= i < |s| :: IsDigit(s[i])
  {
    if s == "" then 0
    else
      assert IsDigit(s[|s| - 1]);
      NatOf(s[..|s| - 1]) * 10 + (s[|s| - 1] as int - '0' as int)
  }

  /** Whether a fraction or an exponent follows the digits. */
  predicate FloatTail(s: string) {
    || (|s| >= 2 && s[0] == '.' && IsDigit(s[1]))
    || (|s| >= 2 && (s[0] == 'e' || s[0] == 'E')
        && (IsDigit(s[1]) || (|s| >= 3 && (s[1] == '-' || s[1] == '+') && IsDigit(s[2]))))
  }

  /** An unsigned integer literal: a lone zero, or digits that do not start with one. */
  function ParseDigits(s: string): (r: Parsed<nat>)
    ensures r.Parsed? ==> |r.rest| < |s|
  {
    var run := DigitRun(s);
    if run == 0 then Failed(NonCanonical)
    else
      var used := if s[0] == '0' then 1 else run;
      if FloatTail(s[used..]) then Failed(FloatNotAllowed)
      else Parsed(NatOf(s[..used]), s[used..])
  }

  function ParseNumber(s: string): (r: Parsed<Json>)
    requires s != ""
    ensures r.Parsed? ==> |r.rest| < |s|
  {
    var negative := s[0] == '-';
    match ParseDigits(if negative then s[1..] else s)
    case Failed(code) => Failed(code)
    case Parsed(n, rest) => Parsed(JInt(if negative then 0 - n as int else n as int), rest)
  }

  // ----- Strings --------------------------------------------------------------------------------------------

  function HexValue(c: char): (r: Option<nat>)
    ensures r.Some? ==> r.value < 16
  {
    if '0' <= c <= '9' then Some(c as int - '0' as int)
    else if 'a' <= c <= 'f' then Some(c as int - 'a' as int + 10)
    else if 'A' <= c <= 'F' then Some(c as int - 'A' as int + 10)
    else None
  }

  /** The code unit a `\u` escape names. */
  function HexUnit(s: string): (r: Option<nat>)
    requires |s| == 4
    ensures r.Some? ==> r.value < 0x1_0000
  {
    var a, b, c, d := HexValue(s[0]), HexValue(s[1]), HexValue(s[2]), HexValue(s[3]);
    if a.None? || b.None? || c.None? || d.None? then None
    else Some(a.value * 4096 + b.value * 256 + c.value * 16 + d.value)
  }

  /** The low half of a surrogate pair, if its escape comes next. */
  function LowHalf(s: string): (r: Option<nat>)
    ensures r.Some? ==> |s| >= 6 && r.value < 0x400
  {
    if |s| >= 6 && s[0] == '\\' && s[1] == 'u' then
      var unit := HexUnit(s[2..6]);
      if unit.Some? && 0xDC00 <= unit.value < 0xE000 then Some(unit.value - 0xDC00) else None
    else None
  }

  function ShortEscape(c: char): Option<char> {
    if c == '\"' || c == '\\' || c == '/' then Some(c)
    else if c == 'n' then Some('\n')
    else if c == 'r' then Some('\r')
    else if c == 't' then Some('\t')
    else if c == 'b' then Some(8 as char)
    else if c == 'f' then Some(12 as char)
    else None
  }

  /** One character of a string literal; two escapes may name the halves of one. */
  function ParseChar(s: string): (r: Parsed<char>)
    requires s != ""
    ensures r.Parsed? ==> |r.rest| < |s|
  {
    if s[0] as int < 32 then Failed(NonCanonical)
    else if s[0] != '\\' then Parsed(s[0], s[1..])
    else if |s| >= 6 && s[1] == 'u' then
      var unit := HexUnit(s[2..6]);
      if unit.None? then Failed(NonCanonical)
      else if !(0xD800 <= unit.value < 0xE000) then Parsed(unit.value as char, s[6..])
      else if unit.value < 0xDC00 && LowHalf(s[6..]).Some? then
        Parsed((0x1_0000 + (unit.value - 0xD800) * 0x400 + LowHalf(s[6..]).value) as char, s[12..])
      else Failed(NonCanonical)
    else if |s| >= 2 && ShortEscape(s[1]).Some? then Parsed(ShortEscape(s[1]).value, s[2..])
    else Failed(NonCanonical)
  }

  /** The rest of a string literal, after its opening quote. */
  function ParseChars(s: string): (r: Parsed<string>)
    ensures r.Parsed? ==> |r.rest| < |s|
  {
    if s == "" then Failed(NonCanonical)
    else if s[0] == '\"' then Parsed("", s[1..])
    else
      match ParseChar(s)
      case Failed(code) => Failed(code)
      case Parsed(c, t) =>
        match ParseChars(t)
        case Failed(code) => Failed(code)
        case Parsed(cs, rest) => Parsed([c] + cs, rest)
  }

  // ----- Values ---------------------------------------------------------------------------------------------

  function ParseValue(s: string): (r: Parsed<Json>)
    ensures r.Parsed? ==> |r.rest| < |s|
    decreases |s|, 0
  {
    if s == "" then Failed(NonCanonical)
    else if s[0] == '\"' then
      (match ParseChars(s[1..])
       case Failed(code) => Failed(code)
       case Parsed(t, rest) => Parsed(JString(t), rest))
    else if s[0] == '[' then
      var t := SkipSpace(s[1..]);
      if t != "" && t[0] == ']' then Parsed(JArray([]), t[1..])
      else
        (match ParseItems(t)
         case Failed(code) => Failed(code)
         case Parsed(items, rest) => Parsed(JArray(items), rest))
    else if s[0] == '{' then
      var t := SkipSpace(s[1..]);
      if t != "" && t[0] == '}' then Parsed(JObject([]), t[1..])
      else
        (match ParseMembers(t)
         case Failed(code) => Failed(code)
         case Parsed(fields, rest) =>
           if Distinct(KeyList(fields)) then Parsed(JObject(fields), rest) else Failed(DuplicateKey))
    else if "null" <= s then Parsed(JNull, s[4..])
    else if "true" <= s then Parsed(JBool(true), s[4..])
    else if "false" <= s then Parsed(JBool(false), s[5..])
    else if "NaN" <= s || "Infinity" <= s || "-Infinity" <= s then Failed(FloatNotAllowed)
    else ParseNumber(s)
  }

  /** Elements up to the closing bracket, from the start of an element. */
  function ParseItems(s: string): (r: Parsed<seq<Json>>)
    ensures r.Parsed? ==> |r.rest| < |s|
    decreases |s|, 1
  {
    match ParseValue(s)
    case Failed(code) => Failed(code)
    case Parsed(v, after) =>
      var t := SkipSpace(after);
      if t == "" then Failed(NonCanonical)
      else if t[0] == ']' then Parsed([v], t[1..])
      else if t[0] != ',' then Failed(NonCanonical)
      else
        match ParseItems(SkipSpace(t[1..]))
        case Failed(code) => Failed(code)
        case Parsed(vs, rest) => Parsed([v] + vs, rest)
  }

  function ParseMember(s: string): (r: Parsed<Field>)
    ensures r.Parsed? ==> |r.rest| < |s|
    decreases |s|, 0
  {
    if s == "" || s[0] != '\"' then Failed(NonCanonical)
    else
      match ParseChars(s[1..])
      case Failed(code) => Failed(code)
      case Parsed(key, after) =>
        var t := SkipSpace(after);
        if t == "" || t[0] != ':' then Failed(NonCanonical)
        else
          match ParseValue(SkipSpace(t[1..]))
          case Failed(code) => Failed(code)
          case Parsed(v, rest) => Parsed(Field(key, v), rest)
  }

  /** Members up to the closing brace, from the start of a member. */
  function ParseMembers(s: string): (r: Parsed<seq<Field>>)
    ensures r.Parsed? ==> |r.rest| < |s|
    decreases |s|, 1
  {
    match ParseMember(s)
    case Failed(code) => Failed(code)
    case Parsed(f, after) =>
      var t := SkipSpace(after);
      if t == "" then Failed(NonCanonical)
      else if t[0] == '}' then Parsed([f], t[1..])
      else if t[0] != ',' then Failed(NonCanonical)
      else
        match ParseMembers(SkipSpace(t[1..]))
        case Failed(code) => Failed(code)
        case Parsed(fs, rest) => Parsed([f] + fs, rest)
  }

  datatype ParseResult = Ok(value: Json) | Err(code: ParseCode)

  /** The boundary's parser: read a value, refuse trailing content and any text that is not
      exactly what the printer writes for that value. */
  function ParseCanonical(text: string): ParseResult {
    match ParseValue(text)
    case Failed(code) => Err(code)
    case Parsed(v, rest) =>
      if SkipSpace(rest) != "" then Err(NonCanonical)
      else
        var frozen := Freeze(v);
        if frozen.None? then Err(FloatNotAllowed)
        else if Print(frozen.value) != text then Err(NonCanonical)
        else Ok(v)
  }

  // ----- The parser reads back what the printer writes --------------------------------------------------------

  /** Where a printed number may stop: at the end, or before punctuation. */
  predicate Stops(rest: string) {
    rest == "" || rest[0] == ',' || rest[0] == ']' || rest[0] == '}'
  }

  lemma {:induction false} DigitsAreDigits(n: nat)
    ensures forall i | 0 <= i < |Digits(n)| :: IsDigit(Digits(n)[i])
    ensures NatOf(Digits(n)) == n
    ensures Digits(n)[0] == '0' ==> n == 0
    ensures n > 0 ==> Digits(n)[0] != '0'
  {
    if n >= 10 {
      DigitsAreDigits(n / 10);
      assert Digits(n)[..|Digits(n)| - 1] == Digits(n / 10);
    } else {
      assert Digits(n)[..0] == "";
    }
  }

  lemma {:induction false} RunOfDigits(d: string, rest: string)
    requires forall i | 0 <= i < |d| :: IsDigit(d[i])
    requires rest == "" || !IsDigit(rest[0])
    ensures DigitRun(d + rest) == |d|
  {
    if d == "" {
      assert d + rest == rest;
    } else {
      assert (d + rest)[1..] == d[1..] + rest;
      RunOfDigits(d[1..], rest);
    }
  }

  lemma ReadDigits(n: nat, rest: string)
    requires Stops(rest)
    ensures ParseDigits(Digits(n) + rest) == Parsed(n, rest)
  {
    var d := Digits(n);
    DigitsAreDigits(n);
    RunOfDigits(d, rest);
    assert (d + rest)[..|d|] == d && (d + rest)[|d|..] == rest;
    assert d[0] == '0' ==> d == "0";
  }

  /** A text that starts like a number is read as one. */
  lemma NumberDispatch(s: string)
    requires s != "" && (IsDigit(s[0]) || (|s| > 1 && s[0] == '-' && IsDigit(s[1])))
    ensures ParseValue(s) == ParseNumber(s)
  {
    hide ParseNumber, ParseItems, ParseMembers, ParseChars, SkipSpace;
    assert "null"[0] == 'n' && "true"[0] == 't' && "false"[0] == 'f' && "NaN"[0] == 'N' && "Infinity"[0] == 'I';
    assert "-Infinity"[1] == 'I';
  }

  lemma ReadNatural(m: nat, rest: string)
    requires Stops(rest)
    ensures ParseValue(Digits(m) + rest) == Parsed(JInt(m), rest)
  {
    ReadDigits(m, rest);
    DigitsAreDigits(m);
    var s := Digits(m) + rest;
    assert s[0] == Digits(m)[0] && IsDigit(Digits(m)[0]);
    hide ParseDigits, Digits, DigitRun, NatOf, ParseValue;
    NumberDispatch(s);
  }

  lemma ReadNegative(m: nat, rest: string)
    requires Stops(rest)
    ensures ParseValue("-" + Digits(m) + rest) == Parsed(JInt(0 - m), rest)
  {
    hide ParseDigits, Digits, DigitRun, NatOf, ParseValue;
    ReadDigits(m, rest);
    DigitsAreDigits(m);
    var d := Digits(m);
    var s := "-" + d + rest;
    assert s[0] == '-' && s[1..] == d + rest;
    assert s[1] == d[0] && IsDigit(d[0]);
    NumberDispatch(s);
  }

  lemma ReadNumber(n: int, rest: string)
    requires Stops(rest)
    ensures ParseValue(Decimal(n) + rest) == Parsed(JInt(n), rest)
  {
    hide ParseValue, Digits;
    if n < 0 { ReadNegative(-n, rest); } else { ReadNatural(n, rest); }
  }

  lemma ReadChar(c: char, t: string)
    ensures ParseChar(Escape(c) + t) == Parsed(c, t)
    ensures (Escape(c) + t)[0] != '\"'
  {
    var e, s := Escape(c), Escape(c) + t;
    if |e| == 6 {
      var n := c as int;
      assert s[2..6] == ['0', '0', HexDigit(n / 16), HexDigit(n % 16)];
      assert s[6..] == t;
      assert n == (n / 16) * 16 + n % 16;
      assert HexValue('0') == Some(0);
      HexOfDigit(n / 16);
      HexOfDigit(n % 16);
      assert HexUnit(s[2..6]) == Some(n);
    } else {
      assert s[|e|..] == t;
    }
  }

  /** Inside a literal, `Escape` writes a character in its shortest form, and in lower case
      where that is hexadecimal. */
  lemma EscapeShortest(c: char, e: string)
    requires e != "" && e[0] != '\"' && ParseChar(e) == Parsed(c, "")
    ensures |Escape(c)| < |e| || e == Escape(c) || (|Escape(c)| == |e| && exists i :: 0 <= i < |e| && 'A' <= e[i] <= 'F')
  {
    if |e| == 6 && |Escape(c)| == 6 && !exists i :: 0 <= i < |e| && 'A' <= e[i] <= 'F' {
      var n := c as int;
      assert HexUnit(e[2..6]) == Some(n);
      LowerHexUnit(e[2..6], n);
      assert e == e[..2] + e[2..6];
    }
  }

  lemma LowerHexUnit(s: string, n: nat)
    requires |s| == 4 && n < 32 && HexUnit(s) == Some(n) && !exists i :: 0 <= i < |s| && 'A' <= s[i] <= 'F'
    ensures s == ['0', '0', HexDigit(n / 16), HexDigit(n % 16)]
  {
    var a, b, c, d := HexValue(s[0]).value, HexValue(s[1]).value, HexValue(s[2]).value, HexValue(s[3]).value;
    assert a == 0 && b == 0;
    assert c == n / 16 && d == n % 16;
  }

  lemma HexOfDigit(d: nat)
    requires d < 16
    ensures HexValue(HexDigit(d)) == Some(d)
  {
  }

  lemma {:induction false} ReadChars(s: string, rest: string)
    ensures ParseChars(Escaped(s) + "\"" + rest) == Parsed(s, rest)
  {
    if s == "" {
      assert Escaped(s) + "\"" + rest == "\"" + rest;
      assert ("\"" + rest)[1..] == rest;
    } else {
      var t := Escaped(s[1..]) + "\"" + rest;
      assert Escaped(s) + "\"" + rest == Escape(s[0]) + t;
      ReadChar(s[0], t);
      ReadChars(s[1..], rest);
      hide ParseChar, Escape, Escaped;
      assert ParseChars(Escape(s[0]) + t) == Parsed([s[0]] + s[1..], rest);
      assert [s[0]] + s[1..] == s;
    }
  }

  lemma ReadQuoted(s: string, rest: string)
    ensures (Quoted(s) + rest)[0] == '\"'
    ensures ParseChars((Quoted(s) + rest)[1..]) == Parsed(s, rest)
  {
    ReadChars(s, rest);
    hide ParseChars, Escaped;
    assert (Quoted(s) + rest)[1..] == Escaped(s) + "\"" + rest;
  }

  // ----- Round trip of whole values ---------------------------------------------------------------------------

  /** Integer-only, with distinct keys in every object, in any order. */
  ghost predicate Plain(v: Json) {
    match v
    case JFloat(_) => false
    case JArray(items) => forall i | 0 <= i < |items| :: Plain(items[i])
    case JObject(fields) => DistinctKeys(fields) && forall i | 0 <= i < |fields| :: Plain(fields[i].value)
    case _ => true
  }

  lemma {:induction false} CanonicalIsPlain(v: Json)
    requires Canonical(v)
    ensures Plain(v)
  {
    match v
    case JArray(items) => forall i | 0 <= i < |items| ensures Plain(items[i]) { CanonicalIsPlain(items[i]); }
    case JObject(fields) => forall i | 0 <= i < |fields| ensures Plain(fields[i].value) { CanonicalIsPlain(fields[i].value); }
    case _ =>
  }

  /** A printed value never starts with a space or a closing bracket. */
  lemma PrintStarts(v: Json)
    requires Plain(v)
    ensures Print(v) != "" && !Space(Print(v)[0]) && Print(v)[0] != ']' && Print(v)[0] != '}'
  {
    if v.JInt? {
      var m: nat := if v.n < 0 then -v.n else v.n;
      DigitsAreDigits(m);
      assert IsDigit(Digits(m)[0]);
      hide Digits;
    }
  }

  lemma FieldStarts(f: Field)
    ensures PrintField(f) != "" && PrintField(f)[0] == '"'
  {
  }

  lemma NoSpace(s: string)
    requires s != "" && !Space(s[0])
    ensures SkipSpace(s) == s
  {
  }

  /** What a printed value is followed by when it is read back. */
  lemma {:induction false} ReadPrinted(v: Json, rest: string)
    requires Plain(v) && Stops(rest)
    ensures ParseValue(Print(v) + rest) == Parsed(v, rest)
    decreases v, 0
  {
    match v
    case JInt(n) => ReadNumber(n, rest);
    case JString(s) => ReadStringValue(s, rest);
    case JArray(items) => ReadArray(items, rest);
    case JObject(fields) => ReadObject(fields, rest);
    case JNull => ReadWord("null", rest);
    case JBool(b) => ReadWord(if b then "true" else "false", rest);
  }

  lemma ReadWord(word: string, rest: string)
    requires word == "null" || word == "true" || word == "false"
    ensures ParseValue(word + rest)
      == Parsed(if word == "null" then JNull else JBool(word == "true"), rest)
  {
    var s := word + rest;
    hide ParseNumber, ParseItems, ParseMembers, ParseChars, SkipSpace;
    assert s[|word|..] == rest && word <= s;
    assert s[0] == word[0] && "null"[0] == 'n' && "true"[0] == 't' && "false"[0] == 'f';
  }

  lemma ReadStringValue(t: string, rest: string)
    ensures ParseValue(Quoted(t) + rest) == Parsed(JString(t), rest)
  {
    ReadQuoted(t, rest);
    assert Quoted(t) + rest != "";
    hide Quoted, ParseChars;
  }

  lemma {:induction false} ReadArray(items: seq<Json>, rest: string)
    requires (forall i | 0 <= i < |items| :: Plain(items[i])) && Stops(rest)
    ensures ParseValue("[" + PrintItems(items) + "]" + rest) == Parsed(JArray(items), rest)
    decreases items, 1
  {
    var s := "[" + PrintItems(items) + "]" + rest;
    var body := PrintItems(items) + "]" + rest;
    assert s[1..] == body && s[0] == '[';
    if items == [] {
      assert body == "]" + rest;
      assert body[1..] == rest;
      hide ParseItems;
    } else {
      ReadItems(items, rest);
      ItemsStart(items);
      assert body[0] == PrintItems(items)[0];
      NoSpace(body);
      hide ParseItems, PrintItems, SkipSpace, Plain;
    }
  }

  lemma ItemsStart(items: seq<Json>)
    requires items != [] && Plain(items[0])
    ensures PrintItems(items) != "" && !Space(PrintItems(items)[0]) && PrintItems(items)[0] != ']'
  {
    PrintStarts(items[0]);
    hide Print, Plain, Space;
  }

  lemma {:induction false} ReadItems(items: seq<Json>, rest: string)
    requires items != [] && forall i | 0 <= i < |items| :: Plain(items[i])
    ensures ParseItems(PrintItems(items) + "]" + rest) == Parsed(items, rest)
    decreases items, 0
  {
    hide ParseItems, ParseValue, Print, Plain;
    var v, tail := items[0], items[1..];
    if tail == [] {
      var after := "]" + rest;
      assert PrintItems(items) + "]" + rest == Print(v) + after;
      assert items == [v];
      ReadPrinted(v, after);
      assert after[1..] == rest;
      ItemsEnd(Print(v) + after, v, after);
    } else {
      var more := PrintItems(tail) + "]" + rest;
      var after := "," + more;
      assert PrintItems(items) + "]" + rest == Print(v) + after;
      ReadPrinted(v, after);
      ReadItems(tail, rest);
      ItemsStart(tail);
      assert more[0] == PrintItems(tail)[0] && after[1..] == more;
      ItemsContinue(Print(v) + after, v, after, more, tail, rest);
      assert [v] + tail == items;
    }
  }

  lemma ItemsEnd(s: string, v: Json, after: string)
    requires ParseValue(s) == Parsed(v, after) && after != "" && after[0] == ']'
    ensures ParseItems(s) == Parsed([v], after[1..])
  {
    hide ParseValue;
    NoSpace(after);
  }

  lemma ItemsContinue(s: string, v: Json, after: string, more: string, tail: seq<Json>, rest: string)
    requires ParseValue(s) == Parsed(v, after) && after == "," + more
    requires more != "" && !Space(more[0]) && ParseItems(more) == Parsed(tail, rest)
    ensures ParseItems(s) == Parsed([v] + tail, rest)
  {
    hide ParseValue;
    NoSpace(after);
    NoSpace(more);
    assert after[1..] == more;
    hide SkipSpace;
  }

  lemma ObjectDispatch(s: string, body: string, fields: seq<Field>, rest: string)
    requires s == "{" + body && body != "" && !Space(body[0])
    requires if body[0] == '}' then fields == [] && rest == body[1..] else ParseMembers(body) == Parsed(fields, rest)
    requires Distinct(KeyList(fields))
    ensures ParseValue(s) == Parsed(JObject(fields), rest)
  {
    hide ParseMembers, ParseItems, ParseNumber, ParseChars, KeyList, Distinct, Space;
    NoSpace(body);
    assert s[0] == '{' && s[1..] == body;
  }

  lemma {:induction false} ReadObject(fields: seq<Field>, rest: string)
    requires DistinctKeys(fields) && (forall i | 0 <= i < |fields| :: Plain(fields[i].value)) && Stops(rest)
    ensures ParseValue("{" + PrintFields(fields) + "}" + rest) == Parsed(JObject(fields), rest)
    decreases fields, 2
  {
    assert Distinct(KeyList(fields));
    hide ParseValue, ParseMembers, Plain, KeyList, Distinct, PrintField;
    var body := PrintFields(fields) + "}" + rest;
    assert "{" + PrintFields(fields) + "}" + rest == "{" + body;
    if fields == [] {
      assert body == "}" + rest && body[1..] == rest;
    } else {
      ReadMembers(fields, rest);
      FieldsStart(fields);
      assert body[0] == PrintFields(fields)[0];
    }
    ObjectDispatch("{" + body, body, fields, rest);
  }

  lemma FieldsStart(fields: seq<Field>)
    requires fields != []
    ensures PrintFields(fields) != "" && PrintFields(fields)[0] == '"'
  {
    FieldStarts(fields[0]);
    hide PrintField;
  }

  /** A member is its key, a colon and its value. */
  lemma MemberParts(s: string, key: string, after: string, value: string, v: Json, rest: string)
    requires s != "" && s[0] == '"' && ParseChars(s[1..]) == Parsed(key, after) && after == ":" + value
    requires value != "" && !Space(value[0]) && ParseValue(value) == Parsed(v, rest)
    ensures ParseMember(s) == Parsed(Field(key, v), rest)
  {
    hide ParseValue, ParseChars;
    assert after[0] == ':' && after[1..] == value;
    NoSpace(after);
    NoSpace(value);
    hide SkipSpace, Space;
  }

  /** A printed value starts as no space does, whatever follows it. */
  lemma ValueStarts(v: Json, rest: string)
    requires Plain(v)
    ensures Print(v) + rest != "" && !Space((Print(v) + rest)[0])
  {
    PrintStarts(v);
    hide Print, Plain, Space;
  }

  lemma {:induction false} ReadMember(f: Field, rest: string)
    requires Plain(f.value) && Stops(rest)
    ensures ParseMember(PrintField(f) + rest) == Parsed(f, rest)
    decreases f, 1
  {
    hide ParseValue, ParseChars, ParseMember, Quoted, Print, Plain;
    var value := Print(f.value) + rest;
    var after := ":" + value;
    assert PrintField(f) + rest == Quoted(f.key) + after;
    ReadQuoted(f.key, after);
    ReadPrinted(f.value, rest);
    ValueStarts(f.value, rest);
    MemberParts(Quoted(f.key) + after, f.key, after, value, f.value, rest);
  }

  lemma {:induction false} ReadMembers(fields: seq<Field>, rest: string)
    requires fields != [] && forall i | 0 <= i < |fields| :: Plain(fields[i].value)
    ensures ParseMembers(PrintFields(fields) + "}" + rest) == Parsed(fields, rest)
    decreases fields, 1
  {
    hide ParseMembers, ParseMember, PrintField, Plain, Quoted, Print;
    var f, tail := fields[0], fields[1..];
    if tail == [] {
      var after := "}" + rest;
      assert PrintFields(fields) + "}" + rest == PrintField(f) + after;
      assert fields == [f];
      ReadMember(f, after);
      assert after[1..] == rest;
      MembersEnd(PrintField(f) + after, f, after);
    } else {
      var more := PrintFields(tail) + "}" + rest;
      var after := "," + more;
      assert PrintFields(fields) + "}" + rest == PrintField(f) + after;
      ReadMember(f, after);
      ReadMembers(tail, rest);
      FieldsStart(tail);
      assert more[0] == PrintFields(tail)[0] && after[1..] == more;
      MembersContinue(PrintField(f) + after, f, after, more, tail, rest);
      assert [f] + tail == fields;
    }
  }

  lemma MembersEnd(s: string, f: Field, after: string)
    requires ParseMember(s) == Parsed(f, after) && after != "" && after[0] == '}'
    ensures ParseMembers(s) == Parsed([f], after[1..])
  {
    hide ParseMember;
    NoSpace(after);
  }

  lemma MembersContinue(s: string, f: Field, after: string, more: string, tail: seq<Field>, rest: string)
    requires ParseMember(s) == Parsed(f, after) && after == "," + more
    requires more != "" && !Space(more[0]) && ParseMembers(more) == Parsed(tail, rest)
    ensures ParseMembers(s) == Parsed([f] + tail, rest)
  {
    hide ParseMember;
    NoSpace(after);
    NoSpace(more);
    assert after[1..] == more;
    hide SkipSpace;
  }

  // ----- The boundary accepts exactly the canonical texts -------------------------------------------------------

  lemma {:induction false} FreezeKeepsOrder(fields: seq<Field>)
    requires SortedBy(fields, FieldLe)
    ensures SortBy(fields, FieldLe) == fields
  {
    if fields != [] {
      FreezeKeepsOrder(fields[1..]);
      assert fields[1..] == [] || FieldLe(fields[0], fields[1]);
      assert fields == [fields[0]] + fields[1..];
    }
  }

  /** Freezing leaves a canonical value alone. */
  lemma {:induction false} FreezeCanonical(v: Json)
    requires Canonical(v)
    ensures Freeze(v) == Some(v)
    decreases v, 0
  {
    match v
    case JArray(items) => FreezeCanonicalItems(items);
    case JObject(fields) =>
      FreezeCanonicalFields(fields);
      FreezeKeepsOrder(fields);
      assert Distinct(KeyList(fields));
    case _ =>
  }

  lemma {:induction false} FreezeCanonicalItems(items: seq<Json>)
    requires forall i | 0 <= i < |items| :: Canonical(items[i])
    ensures FreezeItems(items) == Some(items)
    decreases items, 1
  {
    if items != [] {
      FreezeCanonical(items[0]);
      FreezeCanonicalItems(items[1..]);
      assert items == [items[0]] + items[1..];
    }
  }

  lemma {:induction false} FreezeCanonicalFields(fields: seq<Field>)
    requires forall i | 0 <= i < |fields| :: Canonical(fields[i].value)
    ensures FreezeFields(fields) == Some(fields)
    decreases fields, 1
  {
    if fields != [] {
      FreezeCanonical(fields[0].value);
      FreezeCanonicalFields(fields[1..]);
      assert fields == [fields[0]] + fields[1..];
    }
  }

  lemma FieldOrderLinear()
    ensures LinearOrder(FieldLe)
  {
    forall a: Field, b: Field ensures FieldLe(a, b) || FieldLe(b, a) { StringLeTotal(a.key, b.key); }
    forall a: Field, b: Field, c: Field | FieldLe(a, b) && FieldLe(b, c) ensures FieldLe(a, c) {
      StringLeTransitive(a.key, b.key, c.key);
    }
  }

  predicate KeysApart(a: Field, b: Field) { a.key != b.key }

  /** Whatever freezes is canonical. */
  lemma {:induction false} FrozenIsCanonical(v: Json)
    requires Freeze(v).Some?
    ensures Canonical(Freeze(v).value)
    decreases v, 0
  {
    match v
    case JArray(items) => FrozenItemsCanonical(items);
    case JObject(fields) =>
      FrozenFieldsCanonical(fields);
      var frozen := FreezeFields(fields).value;
      FieldOrderLinear();
      SortBySorted(frozen, FieldLe);
      SortByElements(frozen, FieldLe);
      forall i, j | 0 <= i < j < |frozen| ensures KeysApart(frozen[i], frozen[j]) {
        assert KeyList(frozen)[i] == frozen[i].key && KeyList(frozen)[j] == frozen[j].key;
      }
      SortByPairwise(frozen, FieldLe, KeysApart);
      var sorted := SortBy(frozen, FieldLe);
      forall i | 0 <= i < |sorted| ensures Canonical(sorted[i].value) {
        assert sorted[i] in sorted;
        assert sorted[i] in frozen;
      }
      assert forall i, j | 0 <= i < j < |sorted| :: KeysApart(sorted[i], sorted[j]);
    case _ =>
  }

  lemma {:induction false} FrozenItemsCanonical(items: seq<Json>)
    requires FreezeItems(items).Some?
    ensures forall i | 0 <= i < |items| :: Canonical(FreezeItems(items).value[i])
    decreases items, 1
  {
    if items != [] {
      FrozenIsCanonical(items[0]);
      FrozenItemsCanonical(items[1..]);
    }
  }

  lemma {:induction false} FrozenFieldsCanonical(fields: seq<Field>)
    requires FreezeFields(fields).Some?
    ensures forall f | f in FreezeFields(fields).value :: Canonical(f.value)
    decreases fields, 1
  {
    if fields != [] {
      FrozenIsCanonical(fields[0].value);
      FrozenFieldsCanonical(fields[1..]);
    }
  }

  /** Parsing undoes printing. */
  lemma PrintThenParse(v: Json)
    requires Canonical(v)
    ensures ParseCanonical(Print(v)) == Ok(v)
  {
    CanonicalIsPlain(v);
    ReadPrinted(v, "");
    assert Print(v) + "" == Print(v);
    FreezeCanonical(v);
    hide ParseValue, Freeze, Print;
  }

  /** The boundary accepts a text exactly when the printer writes it for some canonical
      value, and then returns that value. */
  lemma AcceptsExactlyPrinted(text: string, v: Json)
    ensures ParseCanonical(text) == Ok(v) <==> Canonical(v) && text == Print(v)
  {
    if ParseCanonical(text) == Ok(v) {
      var frozen := Freeze(v).value;
      hide ParseValue, Print, Freeze;
      FrozenIsCanonical(v);
      assert Print(frozen) == text;
      CanonicalIsPlain(frozen);
      ReadPrinted(frozen, "");
      assert Print(frozen) + "" == text;
    }
    if Canonical(v) && text == Print(v) { PrintThenParse(v); }
  }

  /** Hence no two canonical values print alike. */
  lemma PrintInjective(a: Json, b: Json)
    requires Canonical(a) && Canonical(b) && Print(a) == Print(b)
    ensures a == b
  {
    PrintThenParse(a);
    PrintThenParse(b);
  }
}
