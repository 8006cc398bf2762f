/** Bytes of canonical values, the framing that binds a hash to its domain, and the writer
    that fills a string buffer. */
module Codec {
  import opened Prelude
  import opened CanonicalJson
  import opened JsonParser
  import Utf8

  // ----- Canonical bytes --------------------------------------------------------------------------------------

  /** The committed bytes of a value: its canonical text, a newline, UTF-8. */
  function CanonicalBytes(v: Json): Option<seq<byte>> {
    var frozen := Freeze(v);
    if frozen.None? then None else Some(Utf8.Encode(Print(frozen.value) + "\n"))
  }

  /** Two values have the same bytes exactly when they freeze to the same value: key order
      in the input is the only thing forgotten. */
  lemma BytesIdentify(a: Json, b: Json)
    requires Freeze(a).Some? && Freeze(b).Some?
    ensures CanonicalBytes(a) == CanonicalBytes(b) <==> Freeze(a) == Freeze(b)
  {
    if CanonicalBytes(a) == CanonicalBytes(b) {
      var s, t := Print(Freeze(a).value), Print(Freeze(b).value);
      Utf8.DecodeEncoded(s + "\n");
      Utf8.DecodeEncoded(t + "\n");
      assert (s + "\n")[..|s|] == s && (t + "\n")[..|t|] == t;
      FrozenIsCanonical(a);
      FrozenIsCanonical(b);
      PrintInjective(Freeze(a).value, Freeze(b).value);
    }
  }

  datatype BoundaryResult = Accepted(value: Json) | InvalidUtf8 | Refused(code: ParseCode)

  /** Bytes received at the boundary, decoded and parsed. */
  function ParseBytes(payload: seq<byte>): BoundaryResult {
    var text := Utf8.Decode(payload);
    if text.None? then InvalidUtf8
    else
      match ParseCanonical(text.value)
      case Ok(v) => Accepted(v)
      case Err(code) => Refused(code)
  }

  /** The boundary accepts exactly the bytes of canonical values, without their newline. */
  lemma BoundaryAcceptsExactly(payload: seq<byte>, v: Json)
    ensures ParseBytes(payload) == Accepted(v) <==> Canonical(v) && payload == Utf8.Encode(Print(v))
  {
    hide ParseCanonical, Print, Canonical;
    if ParseBytes(payload) == Accepted(v) {
      Utf8.EncodeDecoded(payload);
      AcceptsExactlyPrinted(Utf8.Decode(payload).value, v);
    }
    if Canonical(v) && payload == Utf8.Encode(Print(v)) {
      Utf8.DecodeEncoded(Print(v));
      AcceptsExactlyPrinted(Print(v), v);
    }
  }

  // ----- Domain framing -----------------------------------------------------------------------------------------

  const DOMAIN_PREFIX: seq<byte> := [80, 111, 112, 112, 101, 114, 80, 97, 100, 0]

  function DomainFrame(domain: string, data: seq<byte>): Option<seq<byte>> {
    if domain == "" || 0 as char in domain then None
    else
      var name := Utf8.Encode(domain);
      if |name| > 65535 then None
      else Some(DOMAIN_PREFIX + [(|name| / 256) as byte, (|name| % 256) as byte] + name + data)
  }

  /** A frame is the ten bytes of "PopperPad" and a zero, the length of the encoded domain in
      two bytes, the higher first, the encoded domain, and the data; there is none for an
      empty, zero-bearing or over-long domain. */
  lemma FrameLayout(domain: string, data: seq<byte>)
    ensures DomainFrame(domain, data).None? <==> domain == "" || 0 as char in domain || |Utf8.Encode(domain)| >= 0x1_0000
    ensures DomainFrame(domain, data).Some? ==>
      var frame, n := DomainFrame(domain, data).value, |Utf8.Encode(domain)|;
      && |frame| == 12 + n + |data|
      && (forall i | 0 <= i < 9 :: frame[i] as int == "PopperPad"[i] as int) && frame[9] == 0
      && frame[10] as int * 256 + frame[11] as int == n
      && frame[12..12 + n] == Utf8.Encode(domain) && frame[12 + n..] == data
  {
    if DomainFrame(domain, data).Some? {
      var frame, name := DomainFrame(domain, data).value, Utf8.Encode(domain);
      hide Utf8.Encode;
      assert frame[..10] == DOMAIN_PREFIX;
      assert frame[10] == (|name| / 256) as byte && frame[11] == (|name| % 256) as byte;
      assert |name| == |name| / 256 * 256 + |name| % 256;
    }
  }

  /** A frame determines its domain and its data, so no two domains share a preimage. */
  lemma FrameInjective(domain: string, data: seq<byte>, other: string, more: seq<byte>)
    requires DomainFrame(domain, data).Some? && DomainFrame(domain, data) == DomainFrame(other, more)
    ensures domain == other && data == more
  {
    var frame := DomainFrame(domain, data).value;
    var a, b := Utf8.Encode(domain), Utf8.Encode(other);
    assert frame[10] == (|a| / 256) as byte && frame[11] == (|a| % 256) as byte;
    assert frame[10] == (|b| / 256) as byte && frame[11] == (|b| % 256) as byte;
    assert |a| == |a| / 256 * 256 + |a| % 256 && |b| == |b| / 256 * 256 + |b| % 256;
    assert |a| == |b|;
    assert frame[12..12 + |a|] == a && frame[12..12 + |b|] == b;
    assert frame[12 + |a|..] == data && frame[12 + |b|..] == more;
    Utf8.DecodeEncoded(domain);
    Utf8.DecodeEncoded(other);
  }

  /** What is hashed for a value under a domain. */
  function HashInput(domain: string, v: Json): Option<seq<byte>> {
    var bytes := CanonicalBytes(v);
    if bytes.None? then None else DomainFrame(domain, bytes.value)
  }

  /** Equal hash inputs mean equal domains and equal canonical values. */
  lemma HashInputInjective(domain: string, v: Json, other: string, w: Json)
    requires HashInput(domain, v).Some? && HashInput(domain, v) == HashInput(other, w)
    ensures domain == other && Freeze(v) == Freeze(w)
  {
    hide DomainFrame, Freeze;
    FrameInjective(domain, CanonicalBytes(v).value, other, CanonicalBytes(w).value);
    BytesIdentify(v, w);
  }

  // ----- The buffer writer ----------------------------------------------------------------------------------------

  /** What a parsed map guarantees: no object repeats a key. */
  predicate KeyedOnce(v: Json) {
    match v
    case JArray(items) => forall i | 0 <= i < |items| :: KeyedOnce(items[i])
    case JObject(fields) => Distinct(KeyList(fields)) && forall i | 0 <= i < |fields| :: KeyedOnce(fields[i].value)
    case _ => true
  }

  lemma {:induction false} PrintItemsAppend(items: seq<Json>, v: Json)
    ensures PrintItems(items + [v]) == PrintItems(items) + (if items == [] then "" else ",") + Print(v)
  {
    if items == [] {
      assert items + [v] == [v];
    } else {
      PrintItemsAppend(items[1..], v);
      assert (items + [v])[1..] == items[1..] + [v];
      hide Print;
      if |items| == 1 { assert items[1..] == []; }
    }
  }

  lemma PrintFieldsCons(first: Field, tail: seq<Field>)
    ensures PrintFields([first] + tail) == PrintField(first) + (if tail == [] then "" else ",") + PrintFields(tail)
  {
    hide PrintField;
    assert ([first] + tail)[1..] == tail;
  }

  lemma {:induction false} PrintFieldsAppend(fields: seq<Field>, f: Field)
    ensures PrintFields(fields + [f]) == PrintFields(fields) + (if fields == [] then "" else ",") + PrintField(f)
  {
    if fields == [] {
      assert fields + [f] == [f];
    } else {
      hide *;
      var first, tail := fields[0], fields[1..];
      assert fields == [first] + tail && fields + [f] == [first] + (tail + [f]);
      PrintFieldsCons(first, tail);
      PrintFieldsCons(first, tail + [f]);
      PrintFieldsAppend(tail, f);
    }
  }

  function OptionSnoc<T>(init: Option<seq<T>>, last: Option<T>): Option<seq<T>> {
    if init.None? || last.None? then None else Some(init.value + [last.value])
  }

  lemma ConsSnoc<T>(head: Option<T>, mid: Option<seq<T>>, last: Option<T>)
    ensures OptionCons(head, OptionSnoc(mid, last)) == OptionSnoc(OptionCons(head, mid), last)
  {
    if head.Some? && mid.Some? && last.Some? {
      assert [head.value] + (mid.value + [last.value]) == [head.value] + mid.value + [last.value];
    }
  }

  lemma {:induction false} FreezeItemsAppend(items: seq<Json>, v: Json)
    ensures FreezeItems(items + [v]) == OptionSnoc(FreezeItems(items), Freeze(v))
  {
    hide Freeze;
    if items == [] {
      assert items + [v] == [v] && [v][1..] == [];
      assert FreezeItems([v]) == OptionCons(Freeze(v), FreezeItems([]));
      if Freeze(v).Some? { assert [Freeze(v).value] + [] == [] + [Freeze(v).value]; }
    } else {
      FreezeItemsAppend(items[1..], v);
      var longer := items + [v];
      assert longer[1..] == items[1..] + [v];
      assert FreezeItems(longer) == OptionCons(Freeze(longer[0]), FreezeItems(longer[1..]));
      assert FreezeItems(items) == OptionCons(Freeze(items[0]), FreezeItems(items[1..]));
      ConsSnoc(Freeze(items[0]), FreezeItems(items[1..]), Freeze(v));
      hide OptionCons, OptionSnoc;
    }
  }

  lemma {:induction false} FreezeFieldsAppend(fields: seq<Field>, f: Field)
    ensures FreezeFields(fields + [f]) == OptionSnoc(FreezeFields(fields), FreezeField(f))
  {
    hide FreezeField;
    if fields == [] {
      assert fields + [f] == [f] && [f][1..] == [];
      assert FreezeFields([f]) == OptionCons(FreezeField(f), FreezeFields([]));
      if FreezeField(f).Some? { assert [FreezeField(f).value] + [] == [] + [FreezeField(f).value]; }
    } else {
      FreezeFieldsAppend(fields[1..], f);
      var longer := fields + [f];
      assert longer[1..] == fields[1..] + [f];
      assert FreezeFields(longer) == OptionCons(FreezeField(longer[0]), FreezeFields(longer[1..]));
      assert FreezeFields(fields) == OptionCons(FreezeField(fields[0]), FreezeFields(fields[1..]));
      ConsSnoc(FreezeField(fields[0]), FreezeFields(fields[1..]), FreezeField(f));
      hide OptionCons, OptionSnoc;
    }
  }

  /** A list that does not freeze has no longer list that does. */
  lemma {:induction false} FreezeItemsPrefix(items: seq<Json>, k: nat)
    requires k <= |items| && FreezeItems(items[..k]).None?
    ensures FreezeItems(items).None?
    decreases |items| - k
  {
    if k == |items| {
      assert items[..k] == items;
    } else {
      assert items[..k + 1] == items[..k] + [items[k]];
      FreezeItemsAppend(items[..k], items[k]);
      FreezeItemsPrefix(items, k + 1);
    }
  }

  lemma {:induction false} FreezeFieldsPrefix(fields: seq<Field>, k: nat)
    requires k <= |fields| && FreezeFields(fields[..k]).None?
    ensures FreezeFields(fields).None?
    decreases |fields| - k
  {
    if k == |fields| {
      assert fields[..k] == fields;
    } else {
      assert fields[..k + 1] == fields[..k] + [fields[k]];
      FreezeFieldsAppend(fields[..k], fields[k]);
      FreezeFieldsPrefix(fields, k + 1);
    }
  }

  /** Sorting by key and freezing the values commute. */
  lemma {:induction false} InsertFrozen(f: Field, fields: seq<Field>)
    requires FreezeFields(fields).Some? && FreezeField(f).Some?
    ensures FreezeFields(InsertBy(f, fields, FieldLe))
      == Some(InsertBy(FreezeField(f).value, FreezeFields(fields).value, FieldLe))
  {
    if fields == [] {
      FreezeCons(f, []);
      assert [f] + [] == [f];
    } else {
      hide FreezeFields, FreezeField, StringLe, InsertBy;
      var first, tail := fields[0], fields[1..];
      assert fields == [first] + tail;
      FreezeCons(first, tail);
      InsertCons(f, first, tail, FieldLe);
      InsertCons(FreezeField(f).value, FreezeField(first).value, FreezeFields(tail).value, FieldLe);
      if FieldLe(f, first) {
        FreezeCons(f, fields);
      } else {
        InsertFrozen(f, tail);
        FreezeCons(first, InsertBy(f, tail, FieldLe));
      }
    }
  }

  lemma FreezeCons(f: Field, tail: seq<Field>)
    ensures FreezeFields([f] + tail) == OptionCons(FreezeField(f), FreezeFields(tail))
  {
    assert ([f] + tail)[1..] == tail;
    hide FreezeField;
  }

  lemma {:induction false} SortFrozen(fields: seq<Field>)
    ensures FreezeFields(SortBy(fields, FieldLe)).Some? <==> FreezeFields(fields).Some?
    ensures FreezeFields(fields).Some? ==>
      FreezeFields(SortBy(fields, FieldLe)) == Some(SortBy(FreezeFields(fields).value, FieldLe))
  {
    if fields != [] {
      SortFrozen(fields[1..]);
      if FreezeFields(fields).Some? {
        InsertFrozen(fields[0], SortBy(fields[1..], FieldLe));
      } else {
        UnfrozenStays(fields);
      }
    }
  }

  lemma {:induction false} FreezeFieldsAll(fields: seq<Field>)
    ensures FreezeFields(fields).Some? <==> forall f | f in fields :: FreezeField(f).Some?
  {
    hide FreezeField;
    if fields != [] {
      FreezeFieldsAll(fields[1..]);
      assert fields == [fields[0]] + fields[1..];
      assert fields[0] in fields;
      assert FreezeFields(fields) == OptionCons(FreezeField(fields[0]), FreezeFields(fields[1..]));
    }
  }

  lemma UnfrozenStays(fields: seq<Field>)
    requires FreezeFields(fields).None?
    ensures FreezeFields(SortBy(fields, FieldLe)).None?
  {
    FreezeFieldsAll(fields);
    FreezeFieldsAll(SortBy(fields, FieldLe));
    SortByElements(fields, FieldLe);
  }

  /** A growing text, written piece by piece. */
  class TextBuffer {
    var text: string

    constructor ()
      ensures text == ""
    {
      text := "";
    }

    method Push(s: string)
      modifies this
      ensures text == old(text) + s
    {
      text := text + s;
    }

    /** Write one value; false when a float stops it. */
    method WriteValue(v: Json) returns (ok: bool)
      requires KeyedOnce(v)
      modifies this
      ensures ok <==> Freeze(v).Some?
      ensures ok ==> text == old(text) + Print(Freeze(v).value)
      decreases v, 0
    {
      match v
      case JNull => Push("null"); return true;
      case JBool(b) => Push(if b then "true" else "false"); return true;
      case JInt(n) => Push(Decimal(n)); return true;
      case JFloat(_) => return false;
      case JString(s) => Push(Quoted(s)); return true;
      case JArray(items) =>
        ok := WriteItems(items);
      case JObject(fields) =>
        ok := WriteFields(fields);
    }

    method WriteItems(items: seq<Json>) returns (ok: bool)
      requires KeyedOnce(JArray(items))
      modifies this
      ensures ok <==> Freeze(JArray(items)).Some?
      ensures ok ==> text == old(text) + Print(Freeze(JArray(items)).value)
      decreases items, 1
    {
      hide Freeze, Print, PrintItems, FreezeItems, KeyedOnce;
      ArrayParts(items);
      Push("[");
      ghost var done: seq<Json> := [];
      for i := 0 to |items|
        invariant FreezeItems(items[..i]) == Some(done) && |done| == i
        invariant text == old(text) + "[" + PrintItems(done)
      {
        ItemStep(items, i, done);
        if i > 0 { Push(","); }
        var wrote := WriteValue(items[i]);
        if !wrote { return false; }
        done := done + [Freeze(items[i]).value];
      }
      assert items[..|items|] == items;
      Push("]");
      return true;
    }

    method WriteMember(f: Field) returns (ok: bool)
      requires KeyedOnce(f.value)
      modifies this
      ensures ok <==> FreezeField(f).Some?
      ensures ok ==> text == old(text) + PrintField(FreezeField(f).value)
      decreases f, 1
    {
      hide Freeze, Print, Quoted;
      Push(Quoted(f.key));
      Push(":");
      ok := WriteValue(f.value);
    }

    method WriteFields(fields: seq<Field>) returns (ok: bool)
      requires KeyedOnce(JObject(fields))
      modifies this
      ensures ok <==> Freeze(JObject(fields)).Some?
      ensures ok ==> text == old(text) + Print(Freeze(JObject(fields)).value)
      decreases fields, 1
    {
      hide Freeze, Print, PrintFields, PrintField, FreezeFields, FreezeField, KeyedOnce, SortBy, FieldLe, KeyList, Distinct;
      ObjectParts(fields);
      var sorted := SortBy(fields, FieldLe);
      Push("{");
      ghost var done: seq<Field> := [];
      for i := 0 to |sorted|
        invariant FreezeFields(sorted[..i]) == Some(done) && |done| == i
        invariant text == old(text) + "{" + PrintFields(done)
      {
        FieldStep(sorted, i, done);
        assert sorted[i] in sorted;
        if i > 0 { Push(","); }
        var wrote := WriteMember(sorted[i]);
        if !wrote { return false; }
        done := done + [FreezeField(sorted[i]).value];
      }
      assert sorted[..|sorted|] == sorted;
      Push("}");
      return true;
    }
  }

  lemma ItemStep(items: seq<Json>, i: nat, done: seq<Json>)
    requires i < |items| && FreezeItems(items[..i]) == Some(done)
    ensures Freeze(items[i]).None? ==> FreezeItems(items).None?
    ensures Freeze(items[i]).Some? ==>
      var v := Freeze(items[i]).value;
      && FreezeItems(items[..i + 1]) == Some(done + [v])
      && PrintItems(done + [v]) == PrintItems(done) + (if done == [] then "" else ",") + Print(v)
  {
    hide Freeze, Print, PrintItems, FreezeItems;
    assert items[..i + 1] == items[..i] + [items[i]];
    FreezeItemsAppend(items[..i], items[i]);
    if Freeze(items[i]).None? { FreezeItemsPrefix(items, i + 1); }
    else { PrintItemsAppend(done, Freeze(items[i]).value); }
  }

  lemma FieldStep(fields: seq<Field>, i: nat, done: seq<Field>)
    requires i < |fields| && FreezeFields(fields[..i]) == Some(done)
    ensures FreezeField(fields[i]).None? ==> FreezeFields(fields).None?
    ensures FreezeField(fields[i]).Some? ==>
      var f := FreezeField(fields[i]).value;
      && FreezeFields(fields[..i + 1]) == Some(done + [f])
      && PrintFields(done + [f]) == PrintFields(done) + (if done == [] then "" else ",") + PrintField(f)
  {
    hide FreezeField, PrintField, PrintFields, FreezeFields;
    assert fields[..i + 1] == fields[..i] + [fields[i]];
    FreezeFieldsAppend(fields[..i], fields[i]);
    if FreezeField(fields[i]).None? { FreezeFieldsPrefix(fields, i + 1); }
    else { PrintFieldsAppend(done, FreezeField(fields[i]).value); }
  }

  lemma ArrayParts(items: seq<Json>)
    requires KeyedOnce(JArray(items))
    ensures forall i | 0 <= i < |items| :: KeyedOnce(items[i])
    ensures Freeze(JArray(items)).Some? <==> FreezeItems(items).Some?
    ensures Freeze(JArray(items)).Some? ==> Print(Freeze(JArray(items)).value) == "[" + PrintItems(FreezeItems(items).value) + "]"
    ensures FreezeItems(items[..0]) == Some([]) && PrintItems([]) == ""
  {
  }

  lemma ObjectParts(fields: seq<Field>)
    requires KeyedOnce(JObject(fields))
    ensures var sorted := SortBy(fields, FieldLe);
      && (forall f | f in sorted :: KeyedOnce(f.value) && f in fields)
      && (Freeze(JObject(fields)).Some? <==> FreezeFields(sorted).Some?)
      && (Freeze(JObject(fields)).Some? ==>
            Print(Freeze(JObject(fields)).value) == "{" + PrintFields(FreezeFields(sorted).value) + "}")
      && FreezeFields(sorted[..0]) == Some([]) && PrintFields([]) == ""
  {
    SortByElements(fields, FieldLe);
    SortFrozen(fields);
  }
}
