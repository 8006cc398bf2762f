/** Canonical integer JSON: a key-sorted printer, a strict parser, and the domain framing of
    hashed bytes. Numbers with a fraction or an exponent are representable, so that they can
    be refused. */
module CanonicalJson {
  import opened Prelude

  datatype Json =
    | JNull
    | JBool(b: bool)
    | JInt(n: int)
    | JFloat(literal: string)
    | JString(s: string)
    | JArray(items: seq<Json>)
    | JObject(fields: seq<Field>)

  datatype Field = Field(key: string, value: Json)

  // ----- Canonical values -----------------------------------------------------------------------------------

  function FieldLe(a: Field, b: Field): bool { StringLe(a.key, b.key) }

  ghost predicate DistinctKeys(fields: seq<Field>) {
    forall i, j | 0 <= i < j < |fields| :: fields[i].key != fields[j].key
  }

  /** Integer-only, with the keys of every object sorted and distinct. */
  ghost predicate Canonical(v: Json) {
    match v
    case JFloat(_) => false
    case JArray(items) => forall i | 0 <= i < |items| :: Canonical(items[i])
    case JObject(fields) =>
      && SortedBy(fields, FieldLe)
      && DistinctKeys(fields)
      && forall i | 0 <= i < |fields| :: Canonical(fields[i].value)
    case _ => true
  }

  // ----- Printing -------------------------------------------------------------------------------------------

  function Digit(d: nat): char
    requires d < 10
  {
    '0' + d as char
  }

  function Digits(n: nat): (s: string)
    ensures s != ""
  {
    if n < 10 then [Digit(n)] else Digits(n / 10) + [Digit(n % 10)]
  }

  function Decimal(n: int): string {
    if n < 0 then "-" + Digits(-n) else Digits(n)
  }

  function HexDigit(d: nat): char
    requires d < 16
  {
    if d < 10 then '0' + d as char else 'a' + (d - 10) as char
  }

  /** A character inside a string literal. */
  function Escape(c: char): (s: string)
    ensures s != ""
  {
    if c == '\"' then "\\\""
    else if c == '\\' then "\\\\"
    else if c == '\n' then "\\n"
    else if c == '\r' then "\\r"
    else if c == '\t' then "\\t"
    else if c as int == 8 then "\\b"
    else if c as int == 12 then "\\f"
    else if c as int < 32 then "\\u00" + [HexDigit(c as int / 16), HexDigit(c as int % 16)]
    else [c]
  }

  function Escaped(s: string): string {
    if s == "" then "" else Escape(s[0]) + Escaped(s[1..])
  }

  function Quoted(s: string): string { "\"" + Escaped(s) + "\"" }

  function Print(v: Json): string
    decreases v, 0
  {
    match v
    case JNull => "null"
    case JBool(b) => if b then "true" else "false"
    case JInt(n) => Decimal(n)
    case JFloat(literal) => literal
    case JString(s) => Quoted(s)
    case JArray(items) => "[" + PrintItems(items) + "]"
    case JObject(fields) => "{" + PrintFields(fields) + "}"
  }

  function PrintItems(items: seq<Json>): string
    decreases items, 1
  {
    if items == [] then ""
    else if |items| == 1 then Print(items[0])
    else Print(items[0]) + "," + PrintItems(items[1..])
  }

  function PrintFields(fields: seq<Field>): string
    decreases fields, 1
  {
    if fields == [] then ""
    else if |fields| == 1 then PrintField(fields[0])
    else PrintField(fields[0]) + "," + PrintFields(fields[1..])
  }

  function PrintField(f: Field): string
    decreases f, 0
  {
    Quoted(f.key) + ":" + Print(f.value)
  }

  // ----- Freezing -------------------------------------------------------------------------------------------

  function KeyList(fields: seq<Field>): seq<string> {
    seq(|fields|, i requires 0 <= i < |fields| => fields[i].key)
  }

  /** The canonical value, with keys sorted throughout; None when a float or a repeated key
      occurs. */
  function Freeze(v: Json): Option<Json>
    decreases v, 0
  {
    match v
    case JFloat(_) => None
    case JArray(items) =>
      var frozen := FreezeItems(items);
      if frozen.None? then None else Some(JArray(frozen.value))
    case JObject(fields) =>
      var frozen := FreezeFields(fields);
      if frozen.None? || !Distinct(KeyList(fields)) then None else Some(JObject(SortBy(frozen.value, FieldLe)))
    case _ => Some(v)
  }

  function OptionCons<T>(head: Option<T>, tail: Option<seq<T>>): Option<seq<T>> {
    if head.None? || tail.None? then None else Some([head.value] + tail.value)
  }

  function FreezeItems(items: seq<Json>): (out: Option<seq<Json>>)
    ensures out.Some? ==> |out.value| == |items|
    decreases items, 1
  {
    if items == [] then Some([]) else OptionCons(Freeze(items[0]), FreezeItems(items[1..]))
  }

  function FreezeField(f: Field): (out: Option<Field>)
    ensures out.Some? ==> out.value.key == f.key
    decreases f, 0
  {
    var v := Freeze(f.value);
    if v.None? then None else Some(Field(f.key, v.value))
  }

  function FreezeFields(fields: seq<Field>): (out: Option<seq<Field>>)
    ensures out.Some? ==> |out.value| == |fields| && KeyList(out.value) == KeyList(fields)
    decreases fields, 1
  {
    if fields == [] then Some([])
    else
      assert KeyList(fields) == [fields[0].key] + KeyList(fields[1..]);
      OptionCons(FreezeField(fields[0]), FreezeFields(fields[1..]))
  }
}
