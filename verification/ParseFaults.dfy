/** What the boundary answers to a printed value of any kind: floats and repeated keys are
    named, the first in reading order, and a wrong order of keys is refused. */
module ParseFaults {
  import opened Prelude
  import opened CanonicalJson
  import opened JsonParser

  // ----- Floats as they are written -----------------------------------------------------------------------------

  /** Digits, no needless zero before them, and then a fraction or an exponent. */
  ghost predicate Fractional(s: string, n: nat) {
    && 0 < n < |s| && (forall i | 0 <= i < n :: '0' <= s[i] <= '9') && (s[0] == '0' ==> n == 1)
    && ((|s| >= n + 2 && (s[n] == '.' || s[n] == 'e' || s[n] == 'E') && '0' <= s[n + 1] <= '9')
        || (|s| >= n + 3 && (s[n] == 'e' || s[n] == 'E') && (s[n + 1] == '-' || s[n + 1] == '+') && '0' <= s[n + 2] <= '9'))
  }

  ghost predicate FloatText(s: string) {
    || s in {"NaN", "Infinity", "-Infinity"}
    || (exists n :: Fractional(s, n))
    || (s != "" && s[0] == '-' && exists n :: Fractional(s[1..], n))
  }

  /** Every float of the value is written as one. */
  ghost predicate Written(v: Json) {
    match v
    case JFloat(literal) => FloatText(literal)
    case JArray(items) => forall i | 0 <= i < |items| :: Written(items[i])
    case JObject(fields) => forall i | 0 <= i < |fields| :: Written(fields[i].value)
    case _ => true
  }

  // ----- The first fault in reading order -------------------------------------------------------------------------

  /** A float is a fault; an object that repeats a key is one once its members are read. */
  ghost function Fault(v: Json): Option<ParseCode>
    decreases v, 0
  {
    match v
    case JFloat(_) => Some(FloatNotAllowed)
    case JArray(items) => ItemsFault(items)
    case JObject(fields) =>
      if MembersFault(fields).Some? then MembersFault(fields)
      else if DistinctKeys(fields) then None else Some(DuplicateKey)
    case _ => None
  }

  ghost function ItemsFault(items: seq<Json>): Option<ParseCode>
    decreases items, 1
  {
    if items == [] then None else if Fault(items[0]).Some? then Fault(items[0]) else ItemsFault(items[1..])
  }

  ghost function MembersFault(fields: seq<Field>): Option<ParseCode>
    decreases fields, 1
  {
    if fields == [] then None
    else if Fault(fields[0].value).Some? then Fault(fields[0].value)
    else MembersFault(fields[1..])
  }

  lemma {:induction false} FaultlessIsPlain(v: Json)
    ensures Fault(v).None? <==> Plain(v)
    decreases v, 0
  {
    match v
    case JArray(items) => ItemsPlain(items);
    case JObject(fields) => MembersPlain(fields);
    case _ =>
  }

  lemma {:induction false} ItemsPlain(items: seq<Json>)
    ensures ItemsFault(items).None? <==> forall i | 0 <= i < |items| :: Plain(items[i])
    decreases items, 1
  {
    if items != [] {
      FaultlessIsPlain(items[0]);
      ItemsPlain(items[1..]);
      assert items == [items[0]] + items[1..];
    }
  }

  lemma {:induction false} MembersPlain(fields: seq<Field>)
    ensures MembersFault(fields).None? <==> forall i | 0 <= i < |fields| :: Plain(fields[i].value)
    decreases fields, 1
  {
    if fields != [] {
      FaultlessIsPlain(fields[0].value);
      MembersPlain(fields[1..]);
      assert fields == [fields[0]] + fields[1..];
    }
  }

  // ----- Reading a faulty value --------------------------------------------------------------------------------------

  lemma ReadFraction(s: string, n: nat, rest: string)
    requires Fractional(s, n)
    ensures s != "" && ParseDigits(s + rest) == Failed(FloatNotAllowed) && IsDigit(s[0])
  {
    var all := s + rest;
    assert all == s[..n] + (s[n..] + rest);
    RunOfDigits(s[..n], s[n..] + rest);
    assert all[n..] == s[n..] + rest;
  }

  lemma ReadPositive(s: string, n: nat, rest: string)
    requires Fractional(s, n)
    ensures s != "" && ParseValue(s + rest) == Failed(FloatNotAllowed) && IsDigit(s[0])
  {
    hide ParseDigits, ParseValue;
    ReadFraction(s, n, rest);
    hide Fractional;
    assert (s + rest)[0] == s[0];
    NumberDispatch(s + rest);
  }

  lemma ReadMinus(s: string, n: nat, rest: string)
    requires s != "" && s[0] == '-' && Fractional(s[1..], n)
    ensures ParseValue(s + rest) == Failed(FloatNotAllowed)
  {
    hide ParseDigits, ParseValue;
    ReadFraction(s[1..], n, rest);
    assert |s| > 1;
    hide Fractional;
    var all := s + rest;
    assert all[1..] == s[1..] + rest && all[0] == '-' && all[1] == s[1..][0];
    NumberDispatch(all);
  }

  lemma ReadFloat(s: string, rest: string)
    requires FloatText(s)
    ensures ParseValue(s + rest) == Failed(FloatNotAllowed)
    ensures s != "" && !Space(s[0]) && s[0] != ']' && s[0] != '}'
  {
    hide ParseValue, Fractional;
    if s in {"NaN", "Infinity", "-Infinity"} {
      ReadConstant(s, rest);
    } else if n :| Fractional(s, n) {
      ReadPositive(s, n, rest);
    } else {
      var n :| Fractional(s[1..], n);
      ReadMinus(s, n, rest);
    }
  }

  lemma ReadConstant(s: string, rest: string)
    requires s in {"NaN", "Infinity", "-Infinity"}
    ensures ParseValue(s + rest) == Failed(FloatNotAllowed)
    ensures s != "" && !Space(s[0]) && s[0] != ']' && s[0] != '}'
  {
    assert s <= s + rest && (s + rest)[0] == s[0];
    assert "NaN"[0] == 'N' && "Infinity"[0] == 'I' && "-Infinity"[0] == '-';
    assert "null"[0] == 'n' && "true"[0] == 't' && "false"[0] == 'f';
    hide ParseNumber, ParseItems, ParseMembers, ParseChars, SkipSpace;
  }

  /** A printed value starts as no space or closing bracket does. */
  lemma WrittenStarts(v: Json, rest: string)
    requires Written(v)
    ensures var s := Print(v) + rest; s != "" && !Space(s[0]) && s[0] != ']' && s[0] != '}'
  {
    if v.JFloat? { ReadFloat(v.literal, rest); }
    else if v.JArray? { assert Print(v)[0] == '['; }
    else if v.JObject? { assert Print(v)[0] == '{'; }
    else {
      PrintStarts(v);
      assert (Print(v) + rest)[0] == Print(v)[0];
    }
  }

  /** The first fault of a printed value is the one reported; with none the value is read. */
  lemma {:induction false} ReadsFault(v: Json, rest: string)
    requires Written(v) && Stops(rest)
    ensures ParseValue(Print(v) + rest) == match Fault(v) case None => Parsed(v, rest) case Some(code) => Failed(code)
    decreases v, 0
  {
    if Fault(v).None? {
      FaultlessIsPlain(v);
      ReadPrinted(v, rest);
    } else {
      match v
      case JFloat(literal) => ReadFloat(literal, rest);
      case JArray(items) => ReadsArrayFault(items, rest);
      case JObject(fields) => ReadsObjectFault(fields, rest);
      case _ =>
    }
  }

  lemma {:induction false} ReadsArrayFault(items: seq<Json>, rest: string)
    requires (forall i | 0 <= i < |items| :: Written(items[i])) && ItemsFault(items).Some?
    ensures ParseValue("[" + PrintItems(items) + "]" + rest) == Failed(ItemsFault(items).value)
    decreases items, 2
  {
    hide ParseItems, PrintItems, Written, ItemsFault;
    var body := PrintItems(items) + "]" + rest;
    var s := "[" + PrintItems(items) + "]" + rest;
    assert s[0] == '[' && s[1..] == body;
    assert items != [] by { NoItemsNoFault(items); }
    ReadsItemsFault(items, rest);
    ItemsWritten(items);
    assert body[0] == PrintItems(items)[0];
    NoSpace(body);
  }

  lemma NoItemsNoFault(items: seq<Json>)
    requires ItemsFault(items).Some?
    ensures items != []
  {
  }

  lemma ItemsWritten(items: seq<Json>)
    requires items != [] && Written(items[0])
    ensures PrintItems(items) != "" && !Space(PrintItems(items)[0]) && PrintItems(items)[0] != ']'
  {
    WrittenStarts(items[0], "");
    assert Print(items[0]) + "" == Print(items[0]);
    hide Print, Written, Space;
  }

  lemma {:induction false} ReadsItemsFault(items: seq<Json>, rest: string)
    requires items != [] && (forall i | 0 <= i < |items| :: Written(items[i])) && ItemsFault(items).Some?
    ensures ParseItems(PrintItems(items) + "]" + rest) == Failed(ItemsFault(items).value)
    decreases items, 1
  {
    hide ParseValue, Print, Written, Fault;
    var v, tail := items[0], items[1..];
    var more := PrintItems(tail) + "]" + rest;
    var after := if tail == [] then "]" + rest else "," + more;
    assert PrintItems(items) + "]" + rest == Print(v) + after;
    ReadsFault(v, after);
    if Fault(v).None? {
      NoItemsNoFault(tail);
      ReadsItemsFault(tail, rest);
      ItemsWritten(tail);
      assert more[0] == PrintItems(tail)[0];
      ItemsFail(Print(v) + after, v, after, more, ItemsFault(tail).value);
    }
  }

  lemma ItemsFail(s: string, v: Json, after: string, more: string, code: ParseCode)
    requires ParseValue(s) == Parsed(v, after) && after == "," + more
    requires more != "" && !Space(more[0]) && ParseItems(more) == Failed(code)
    ensures ParseItems(s) == Failed(code)
  {
    hide ParseValue;
    NoSpace(after);
    NoSpace(more);
    assert after[1..] == more;
    hide SkipSpace;
  }

  lemma {:induction false} ReadsObjectFault(fields: seq<Field>, rest: string)
    requires (forall i | 0 <= i < |fields| :: Written(fields[i].value)) && Stops(rest)
    requires MembersFault(fields).Some? || !DistinctKeys(fields)
    ensures ParseValue("{" + PrintFields(fields) + "}" + rest)
      == Failed(if MembersFault(fields).Some? then MembersFault(fields).value else DuplicateKey)
    decreases fields, 3
  {
    hide ParseValue, ParseMembers, PrintFields, Written, MembersFault;
    var body := PrintFields(fields) + "}" + rest;
    var s := "{" + PrintFields(fields) + "}" + rest;
    assert s == "{" + body;
    assert fields != [] by { NoMembersNoFault(fields); }
    FieldsStart(fields);
    assert body[0] == PrintFields(fields)[0];
    if MembersFault(fields).Some? {
      ReadsMembersFault(fields, rest);
      ObjectFails(s, body, MembersFault(fields).value);
    } else {
      MembersPlain(fields);
      ReadMembers(fields, rest);
      ObjectRepeats(s, body, fields, rest);
    }
  }

  lemma NoMembersNoFault(fields: seq<Field>)
    requires MembersFault(fields).Some? || !DistinctKeys(fields)
    ensures fields != []
  {
  }

  lemma ObjectFails(s: string, body: string, code: ParseCode)
    requires s == "{" + body && body != "" && !Space(body[0]) && body[0] != '}' && ParseMembers(body) == Failed(code)
    ensures ParseValue(s) == Failed(code)
  {
    hide ParseMembers, ParseItems, ParseNumber, ParseChars, Space;
    NoSpace(body);
    assert s[0] == '{' && s[1..] == body;
  }

  lemma ObjectRepeats(s: string, body: string, fields: seq<Field>, rest: string)
    requires s == "{" + body && body != "" && !Space(body[0]) && body[0] != '}' && ParseMembers(body) == Parsed(fields, rest)
    requires !DistinctKeys(fields)
    ensures ParseValue(s) == Failed(DuplicateKey)
  {
    assert !Distinct(KeyList(fields)) by {
      var i, j :| 0 <= i < j < |fields| && fields[i].key == fields[j].key;
      assert KeyList(fields)[i] == KeyList(fields)[j];
    }
    hide ParseMembers, ParseItems, ParseNumber, ParseChars, Space, KeyList, Distinct;
    NoSpace(body);
    assert s[0] == '{' && s[1..] == body;
  }

  lemma {:induction false} ReadsMembersFault(fields: seq<Field>, rest: string)
    requires fields != [] && (forall i | 0 <= i < |fields| :: Written(fields[i].value)) && MembersFault(fields).Some?
    ensures ParseMembers(PrintFields(fields) + "}" + rest) == Failed(MembersFault(fields).value)
    decreases fields, 2
  {
    hide ParseMember, PrintField, Written, Fault;
    var f, tail := fields[0], fields[1..];
    var more := PrintFields(tail) + "}" + rest;
    var after := if tail == [] then "}" + rest else "," + more;
    assert PrintFields(fields) + "}" + rest == PrintField(f) + after;
    ReadsMemberFault(f, after);
    if Fault(f.value).None? {
      NoMembersNoFault(tail);
      ReadsMembersFault(tail, rest);
      FieldsStart(tail);
      assert more[0] == PrintFields(tail)[0];
      MembersFail(PrintField(f) + after, f, after, more, MembersFault(tail).value);
    }
  }

  lemma MembersFail(s: string, f: Field, after: string, more: string, code: ParseCode)
    requires ParseMember(s) == Parsed(f, after) && after == "," + more
    requires more != "" && !Space(more[0]) && ParseMembers(more) == Failed(code)
    ensures ParseMembers(s) == Failed(code)
  {
    hide ParseMember;
    NoSpace(after);
    NoSpace(more);
    assert after[1..] == more;
    hide SkipSpace;
  }

  lemma {:induction false} ReadsMemberFault(f: Field, rest: string)
    requires Written(f.value) && Stops(rest)
    ensures ParseMember(PrintField(f) + rest) == match Fault(f.value) case None => Parsed(f, rest) case Some(code) => Failed(code)
    decreases f, 1
  {
    hide ParseValue, ParseChars, ParseMember, Quoted, Print, Written, Fault;
    var value := Print(f.value) + rest;
    var after := ":" + value;
    var s := PrintField(f) + rest;
    assert s == Quoted(f.key) + after;
    ReadQuoted(f.key, after);
    ReadsFault(f.value, rest);
    WrittenStarts(f.value, rest);
    if Fault(f.value).None? { MemberParts(s, f.key, after, value, f.value, rest); }
    else { MemberFails(s, f.key, after, value, Fault(f.value).value); }
  }

  lemma MemberFails(s: string, key: string, after: string, value: string, code: ParseCode)
    requires s != "" && s[0] == '"' && ParseChars(s[1..]) == Parsed(key, after) && after == ":" + value
    requires value != "" && !Space(value[0]) && ParseValue(value) == Failed(code)
    ensures ParseMember(s) == Failed(code)
  {
    hide ParseValue, ParseChars;
    assert after[0] == ':' && after[1..] == value;
    NoSpace(after);
    NoSpace(value);
    hide SkipSpace, Space;
  }

  /** What the boundary's parser answers to any printed value: its first fault in reading
      order, if it has one; else the value, exactly if its keys are in order. */
  lemma AnswersPrinted(v: Json)
    requires Written(v)
    ensures ParseCanonical(Print(v)) ==
      match Fault(v)
      case Some(code) => Err(code)
      case None => if Canonical(v) then Ok(v) else Err(NonCanonical)
  {
    ReadsFault(v, "");
    assert Print(v) + "" == Print(v);
    hide ParseValue, Print, Freeze, Written;
    if Fault(v).None? {
      if Canonical(v) { PrintThenParse(v); }
      else {
        FaultlessIsPlain(v);
        PlainFreezes(v);
        AcceptsExactlyPrinted(Print(v), v);
      }
    }
  }

  lemma {:induction false} PlainFreezes(v: Json)
    requires Plain(v)
    ensures Freeze(v).Some?
    decreases v, 0
  {
    match v
    case JArray(items) => PlainItemsFreeze(items);
    case JObject(fields) =>
      PlainFieldsFreeze(fields);
      assert Distinct(KeyList(fields));
    case _ =>
  }

  lemma {:induction false} PlainItemsFreeze(items: seq<Json>)
    requires forall i | 0 <= i < |items| :: Plain(items[i])
    ensures FreezeItems(items).Some?
    decreases items, 1
  {
    if items != [] {
      PlainFreezes(items[0]);
      PlainItemsFreeze(items[1..]);
    }
  }

  lemma {:induction false} PlainFieldsFreeze(fields: seq<Field>)
    requires forall i | 0 <= i < |fields| :: Plain(fields[i].value)
    ensures FreezeFields(fields).Some?
    decreases fields, 1
  {
    if fields != [] {
      PlainFreezes(fields[0].value);
      PlainFieldsFreeze(fields[1..]);
    }
  }

  // ----- What a code says of any text ---------------------------------------------------------------------------------

  ghost predicate From(rest: string, s: string) { forall c | c in rest :: c in s }

  /** A float is reported only where a point, an exponent or a constant's capital stands, a
      repeated key only where an object does. */
  ghost predicate Says(code: ParseCode, s: string) {
    && (code.FloatNotAllowed? ==> exists c :: c in s && c in ".eENI")
    && (code.DuplicateKey? ==> '{' in s)
  }

  ghost predicate Honest<T>(r: Parsed<T>, s: string) {
    match r
    case Parsed(_, rest) => From(rest, s)
    case Failed(code) => Says(code, s)
  }

  lemma FromTail(s: string, k: nat)
    requires k <= |s|
    ensures From(s[k..], s)
  {
  }

  lemma {:induction false} FromSpace(s: string)
    ensures From(SkipSpace(s), s)
  {
    if s != "" && Space(s[0]) {
      FromSpace(s[1..]);
      FromTail(s, 1);
    }
  }

  lemma HonestLater<T>(r: Parsed<T>, t: string, s: string)
    requires Honest(r, t) && From(t, s)
    ensures Honest(r, s)
  {
  }

  lemma DigitsHonest(s: string)
    ensures Honest(ParseDigits(s), s)
  {
    var run := DigitRun(s);
    if run > 0 {
      var used := if s[0] == '0' then 1 else run;
      FromTail(s, used);
      if FloatTail(s[used..]) { assert s[used..][0] in s[used..] && s[used..][0] in ".eENI"; }
    }
  }

  lemma NumberHonest(s: string)
    requires s != ""
    ensures Honest(ParseNumber(s), s)
  {
    hide ParseDigits;
    var t := if s[0] == '-' then s[1..] else s;
    DigitsHonest(t);
    if s[0] == '-' { FromTail(s, 1); }
    HonestLater(ParseDigits(t), t, s);
  }

  lemma CharHonest(s: string)
    requires s != ""
    ensures Honest(ParseChar(s), s)
  {
    FromTail(s, 1);
    if |s| >= 2 { FromTail(s, 2); }
    if |s| >= 6 { FromTail(s, 6); }
    if |s| >= 12 { FromTail(s, 12); }
    hide From, HexUnit, ShortEscape;
  }

  lemma NothingSaid(s: string)
    ensures Says(NonCanonical, s)
  {
  }

  lemma {:induction false} CharsHonest(s: string)
    ensures Honest(ParseChars(s), s)
    decreases |s|
  {
    hide From, Says, ParseChar;
    NothingSaid(s);
    if s != "" {
      FromTail(s, 1);
      CharHonest(s);
      if ParseChar(s).Parsed? {
        var t := ParseChar(s).rest;
        CharsHonest(t);
        HonestLater(ParseChars(t), t, s);
      }
    }
  }

  lemma SkippedHonest<T>(r: Parsed<T>, t: string, s: string)
    requires Honest(r, SkipSpace(t)) && From(t, s)
    ensures Honest(r, s) && From(SkipSpace(t), s)
  {
    FromSpace(t);
    hide SkipSpace;
    HonestLater(r, SkipSpace(t), t);
    HonestLater(r, t, s);
  }

  /** Every refusal code of the parser is honest, for every text. */
  lemma {:induction false} ValueHonest(s: string)
    ensures Honest(ParseValue(s), s)
    decreases |s|, 1
  {
    hide From, Says, ParseNumber, ParseItems, ParseMembers, ParseChars, SkipSpace;
    NothingSaid(s);
    if s != "" {
      FromTail(s, 1);
      if s[0] == '"' {
        CharsHonest(s[1..]);
        HonestLater(ParseChars(s[1..]), s[1..], s);
      } else if s[0] == '[' {
        ArrayHonest(s);
      } else if s[0] == '{' {
        ObjectHonest(s);
      } else {
        WordHonest(s);
      }
    }
  }

  lemma {:induction false} ArrayHonest(s: string)
    requires s != "" && s[0] == '['
    ensures Honest(ParseValue(s), s)
    decreases |s|, 0
  {
    hide From, Says, ParseNumber, ParseItems, ParseMembers, ParseChars, SkipSpace;
    FromTail(s, 1);
    var t := SkipSpace(s[1..]);
    ItemsHonest(t);
    SkippedHonest(ParseItems(t), s[1..], s);
    if t != "" { TailFrom(t, s); }
  }

  lemma TailFrom(t: string, s: string)
    requires t != "" && From(t, s)
    ensures From(t[1..], s)
  {
  }

  lemma {:induction false} ObjectHonest(s: string)
    requires s != "" && s[0] == '{'
    ensures Honest(ParseValue(s), s)
    decreases |s|, 0
  {
    hide From, Says, ParseNumber, ParseItems, ParseMembers, ParseChars, SkipSpace, Distinct, KeyList;
    FromTail(s, 1);
    var t := SkipSpace(s[1..]);
    MembersHonest(t);
    SkippedHonest(ParseMembers(t), s[1..], s);
    if t != "" { TailFrom(t, s); }
    ObjectSaid(s);
  }

  lemma ObjectSaid(s: string)
    requires '{' in s
    ensures Says(DuplicateKey, s)
  {
  }

  /** A text that opens no string, array or object is a word, a constant or a number. */
  lemma WordHonest(s: string)
    requires s != "" && s[0] != '"' && s[0] != '[' && s[0] != '{'
    ensures Honest(ParseValue(s), s)
  {
    hide From, Says, ParseNumber, ParseItems, ParseMembers, ParseChars, SkipSpace;
    NumberHonest(s);
    if "NaN" <= s || "Infinity" <= s || "-Infinity" <= s { ConstantSaid(s); }
    if |s| >= 4 { FromTail(s, 4); }
    if |s| >= 5 { FromTail(s, 5); }
  }

  lemma ConstantSaid(s: string)
    requires "NaN" <= s || "Infinity" <= s || "-Infinity" <= s
    ensures Says(FloatNotAllowed, s)
  {
    assert "NaN"[0] == 'N' && "Infinity"[0] == 'I' && "-Infinity"[1] == 'I';
    if "-Infinity" <= s { assert s[1] in s && s[1] in ".eENI"; }
    else { assert s[0] in s && s[0] in ".eENI"; }
  }

  lemma {:induction false} ItemsHonest(s: string)
    ensures Honest(ParseItems(s), s)
    decreases |s|, 2
  {
    hide From, Says, ParseValue, SkipSpace;
    NothingSaid(s);
    ValueHonest(s);
    if ParseValue(s).Parsed? {
      var after := ParseValue(s).rest;
      var t := SkipSpace(after);
      SpaceFrom(after, s);
      if t != "" {
        TailFrom(t, s);
        if t[0] == ',' {
          var u := SkipSpace(t[1..]);
          ItemsHonest(u);
          SkippedHonest(ParseItems(u), t[1..], s);
        }
      }
    }
  }

  lemma SpaceFrom(t: string, s: string)
    requires From(t, s)
    ensures From(SkipSpace(t), s)
  {
    FromSpace(t);
    hide SkipSpace;
  }

  lemma {:induction false} MemberHonest(s: string)
    ensures Honest(ParseMember(s), s)
    decreases |s|, 0
  {
    hide From, Says, ParseValue, ParseChars, SkipSpace;
    NothingSaid(s);
    if s != "" && s[0] == '"' {
      FromTail(s, 1);
      CharsHonest(s[1..]);
      HonestLater(ParseChars(s[1..]), s[1..], s);
      if ParseChars(s[1..]).Parsed? {
        var after := ParseChars(s[1..]).rest;
        var t := SkipSpace(after);
        SpaceFrom(after, s);
        if t != "" {
          TailFrom(t, s);
          var u := SkipSpace(t[1..]);
          ValueHonest(u);
          SkippedHonest(ParseValue(u), t[1..], s);
        }
      }
    }
  }

  lemma {:induction false} MembersHonest(s: string)
    ensures Honest(ParseMembers(s), s)
    decreases |s|, 2
  {
    hide From, Says, ParseMember, SkipSpace;
    NothingSaid(s);
    MemberHonest(s);
    if ParseMember(s).Parsed? {
      var after := ParseMember(s).rest;
      var t := SkipSpace(after);
      SpaceFrom(after, s);
      if t != "" {
        TailFrom(t, s);
        if t[0] == ',' {
          var u := SkipSpace(t[1..]);
          MembersHonest(u);
          SkippedHonest(ParseMembers(u), t[1..], s);
        }
      }
    }
  }

  /** So a text with no point, exponent or constant is never refused for a float, and one with
      no object never for a repeated key; a text that reads as a value but is not exactly what
      is printed for it is not canonical. */
  lemma CodesHonest(text: string)
    ensures ParseValue(text).Failed? ==> ParseCanonical(text) == Err(ParseValue(text).code) && Says(ParseValue(text).code, text)
    ensures ParseValue(text).Parsed? && Freeze(ParseValue(text).value).Some? && ParseCanonical(text).Err? ==>
      ParseCanonical(text).code.NonCanonical?
  {
    ValueHonest(text);
    hide ParseValue, Says, Freeze, Print;
  }
}
