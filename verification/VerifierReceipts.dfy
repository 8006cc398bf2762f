/** Portable verifier receipts: the object that carries one, its decoder, and how exact the
    decoder is. The receipt root is any function of the receipt. */
module VerifierReceipts {
  import opened Prelude
  import opened CanonicalJson

  datatype VerifierResult = Supports | Refutes

  datatype Statement = Statement(
    claimRef: string,
    contextRef: Option<string>,
    recipeRef: string,
    evidenceRef: string,
    edgeRef: string,
    inputRoots: seq<string>,
    verifierId: string,
    verifierVersion: string,
    result: VerifierResult,
    outputRoots: seq<string>,
    policyHash: string,
    toolchainHash: string)

  datatype Receipt = Receipt(statement: Statement, signerKeyId: string, signature: seq<byte>)

  predicate SortedUnique(refs: seq<string>) {
    forall i, j | 0 <= i < j < |refs| :: StringLe(refs[i], refs[j]) && refs[i] != refs[j]
  }

  /** References, sorted and without repetition. */
  predicate ValidRootList(refs: seq<string>) {
    (forall i | 0 <= i < |refs| :: ValidRefText(refs[i])) && SortedUnique(refs)
  }

  predicate ValidStatement(s: Statement) {
    && ValidRefText(s.claimRef) && ValidRefText(s.recipeRef) && ValidRefText(s.evidenceRef) && ValidRefText(s.edgeRef)
    && ValidRefText(s.verifierId) && ValidRefText(s.policyHash) && ValidRefText(s.toolchainHash)
    && (s.contextRef.Some? ==> ValidRefText(s.contextRef.value))
    && ValidRootList(s.inputRoots) && ValidRootList(s.outputRoots)
    && s.verifierVersion != ""
  }

  predicate ValidReceipt(r: Receipt) {
    ValidStatement(r.statement) && ValidRefText(r.signerKeyId) && r.signerKeyId == r.statement.verifierId && |r.signature| == 64
  }

  // ----- Hexadecimal ------------------------------------------------------------------------------------------------

  function ToHex(bytes: seq<byte>): (s: string)
    ensures |s| == 2 * |bytes|
  {
    if bytes == [] then ""
    else [HexDigit(bytes[0] as int / 16), HexDigit(bytes[0] as int % 16)] + ToHex(bytes[1..])
  }

  function LowerHexValue(c: char): Option<nat> {
    if '0' <= c <= '9' then Some(c as int - '0' as int)
    else if 'a' <= c <= 'f' then Some(c as int - 'a' as int + 10)
    else None
  }

  function FromHex(s: string): (r: Option<seq<byte>>)
    ensures r.Some? ==> 2 * |r.value| == |s|
  {
    if s == "" then Some([])
    else if |s| == 1 then None
    else
      var high, low, rest := LowerHexValue(s[0]), LowerHexValue(s[1]), FromHex(s[2..]);
      if high.None? || low.None? || rest.None? then None
      else Some([(high.value * 16 + low.value) as byte] + rest.value)
  }

  lemma {:induction false} HexRoundTrip(bytes: seq<byte>)
    ensures FromHex(ToHex(bytes)) == Some(bytes)
  {
    if bytes != [] {
      HexRoundTrip(bytes[1..]);
      assert ToHex(bytes)[2..] == ToHex(bytes[1..]);
      var n := bytes[0] as int;
      assert n == n / 16 * 16 + n % 16;
      assert bytes == [bytes[0]] + bytes[1..];
    }
  }

  lemma {:induction false} HexExact(s: string)
    requires FromHex(s).Some?
    ensures ToHex(FromHex(s).value) == s
  {
    if s != "" {
      HexExact(s[2..]);
      var n := FromHex(s).value[0] as int;
      var high, low := LowerHexValue(s[0]).value, LowerHexValue(s[1]).value;
      assert n / 16 == high && n % 16 == low;
      assert HexDigit(high) == s[0] && HexDigit(low) == s[1];
      assert s == [s[0], s[1]] + s[2..];
      assert FromHex(s).value[1..] == FromHex(s[2..]).value;
    }
  }

  // ----- The receipt object -------------------------------------------------------------------------------------------

  const STATEMENT_KEYS: seq<string> := [
    "claim_ref", "context_ref", "edge_ref", "evidence_ref", "input_roots", "output_roots", "policy_hash", "recipe_ref",
    "result", "schema", "toolchain_hash", "verifier_id", "verifier_version"]

  const RECEIPT_KEYS: seq<string> := ["algorithm", "receipt_root", "schema", "signature_hex", "signer_key_id", "statement"]

  const STATEMENT_SCHEMA := "popperpad/verifier-statement/v1"
  const RECEIPT_SCHEMA := "popperpad/verifier-receipt/v1"

  function Strings(refs: seq<string>): seq<Json> { seq(|refs|, i requires 0 <= i < |refs| => JString(refs[i])) }

  function ResultName(r: VerifierResult): string { if r.Supports? then "supports" else "refutes" }

  /** The values of a statement object, in key order. */
  function StatementValues(s: Statement): (values: seq<Json>)
    ensures |values| == |STATEMENT_KEYS|
  {
    [JString(s.claimRef), if s.contextRef.None? then JNull else JString(s.contextRef.value), JString(s.edgeRef),
     JString(s.evidenceRef), JArray(Strings(s.inputRoots)), JArray(Strings(s.outputRoots)), JString(s.policyHash),
     JString(s.recipeRef), JString(ResultName(s.result)), JString(STATEMENT_SCHEMA), JString(s.toolchainHash),
     JString(s.verifierId), JString(s.verifierVersion)]
  }

  function ReceiptValues(r: Receipt, root: Receipt -> string): (values: seq<Json>)
    ensures |values| == |RECEIPT_KEYS|
  {
    [JString("ed25519"), JString(root(r)), JString(RECEIPT_SCHEMA), JString(ToHex(r.signature)), JString(r.signerKeyId),
     ObjectOf(STATEMENT_KEYS, StatementValues(r.statement))]
  }

  function ObjectOf(keys: seq<string>, values: seq<Json>): Json
    requires |keys| == |values|
  {
    JObject(seq(|keys|, i requires 0 <= i < |keys| => Field(keys[i], values[i])))
  }

  /** The object a receipt is stored as. */
  function ReceiptObject(r: Receipt, root: Receipt -> string): Json {
    ObjectOf(RECEIPT_KEYS, ReceiptValues(r, root))
  }

  // ----- The decoder ----------------------------------------------------------------------------------------------------

  /** The values of an object that has exactly these keys. Objects are held with sorted keys,
      so its key set is its key list. */
  function ValuesOf(j: Json, keys: seq<string>): (values: Option<seq<Json>>)
    ensures values.Some? ==> |values.value| == |keys| && j == ObjectOf(keys, values.value)
  {
    if !j.JObject? || KeyList(j.fields) != keys then None
    else
      var values := seq(|keys|, i requires 0 <= i < |keys| => assert KeyList(j.fields)[i] == keys[i]; j.fields[i].value);
      assert forall i {:trigger keys[i]} | 0 <= i < |keys| :: KeyList(j.fields)[i] == keys[i];
      assert j.fields == ObjectOf(keys, values).fields;
      Some(values)
  }

  function TextOf(j: Json): Option<string> { if j.JString? then Some(j.s) else None }

  /** The source turns whatever it finds into a tuple: the elements of an array, the
      characters of a string, the keys of an object. */
  function TupleOf(j: Json): Option<seq<string>> {
    match j
    case JArray(items) =>
      if forall i | 0 <= i < |items| :: items[i].JString?
      then Some(seq(|items|, i requires 0 <= i < |items| => items[i].s)) else None
    case JString(s) => Some(seq(|s|, i requires 0 <= i < |s| => [s[i]]))
    case JObject(fields) => Some(KeyList(fields))
    case _ => None
  }

  function ResultOf(j: Json): Option<VerifierResult> {
    if j == JString("supports") then Some(Supports) else if j == JString("refutes") then Some(Refutes) else None
  }

  /** A statement from the values of its object, in key order. */
  function StatementFrom(v: seq<Json>): Option<Statement>
    requires |v| == |STATEMENT_KEYS|
  {
    var inputs, outputs, result := TupleOf(v[4]), TupleOf(v[5]), ResultOf(v[8]);
    if v[9] != JString(STATEMENT_SCHEMA) || inputs.None? || outputs.None? || result.None? then None
    else if !(v[0].JString? && (v[1].JNull? || v[1].JString?) && v[2].JString? && v[3].JString? && v[6].JString?
              && v[7].JString? && v[10].JString? && v[11].JString? && v[12].JString?) then None
    else
      var s := Statement(v[0].s, TextOf(v[1]), v[7].s, v[3].s, v[2].s, inputs.value, v[11].s, v[12].s, result.value,
                         outputs.value, v[6].s, v[10].s);
      if ValidStatement(s) then Some(s) else None
  }

  function ParseStatement(j: Json): Option<Statement> {
    var values := ValuesOf(j, STATEMENT_KEYS);
    if values.None? then None else StatementFrom(values.value)
  }

  function ParseReceipt(j: Json, root: Receipt -> string): Option<Receipt> {
    var values := ValuesOf(j, RECEIPT_KEYS);
    if values.None? then None
    else
      var v := values.value;
      if v[2] != JString(RECEIPT_SCHEMA) || v[0] != JString("ed25519") || !v[3].JString? || |v[3].s| != 128 then None
      else
        var signature, statement := FromHex(v[3].s), ParseStatement(v[5]);
        if signature.None? || statement.None? || !v[4].JString? then None
        else
          var r := Receipt(statement.value, v[4].s, signature.value);
          if ValidReceipt(r) && v[1] == JString(root(r)) then Some(r) else None
  }

  // ----- How exact the decoder is ------------------------------------------------------------------------------------------

  /** The object of a statement, with its two root lists written any way that reads the same. */
  function LooseStatement(s: Statement, inputs: Json, outputs: Json): Json {
    ObjectOf(STATEMENT_KEYS, StatementValues(s)[4 := inputs][5 := outputs])
  }

  lemma ValuesOfObject(keys: seq<string>, values: seq<Json>)
    requires |keys| == |values|
    ensures ValuesOf(ObjectOf(keys, values), keys) == Some(values)
  {
    var o := ObjectOf(keys, values);
    assert KeyList(o.fields) == keys;
    var got := ValuesOf(o, keys).value;
    assert ObjectOf(keys, got).fields == o.fields;
    forall i | 0 <= i < |keys| ensures got[i] == values[i] {
      assert ObjectOf(keys, got).fields[i] == Field(keys[i], got[i]);
      assert o.fields[i] == Field(keys[i], values[i]);
    }
    assert got == values;
  }

  lemma StatementValuesExact(v: seq<Json>, s: Statement)
    requires |v| == |STATEMENT_KEYS|
    ensures StatementFrom(v) == Some(s) <==>
      (ValidStatement(s) && TupleOf(v[4]) == Some(s.inputRoots) && TupleOf(v[5]) == Some(s.outputRoots)
       && v == StatementValues(s)[4 := v[4]][5 := v[5]])
  {
    hide TupleOf, ValidStatement, Strings;
  }

  /** This object is the statement's, up to how the root lists are written. */
  ghost predicate ReadsAs(j: Json, s: Statement) {
    exists inputs, outputs ::
      TupleOf(inputs) == Some(s.inputRoots) && TupleOf(outputs) == Some(s.outputRoots) && j == LooseStatement(s, inputs, outputs)
  }

  lemma StatementExact(j: Json, s: Statement)
    ensures ParseStatement(j) == Some(s) <==> ValidStatement(s) && ReadsAs(j, s)
  {
    hide TupleOf, ValidStatement, StatementFrom, StatementValues;
    if ParseStatement(j) == Some(s) {
      var v := ValuesOf(j, STATEMENT_KEYS).value;
      StatementValuesExact(v, s);
      assert j == LooseStatement(s, v[4], v[5]);
    }
    if ValidStatement(s) && ReadsAs(j, s) {
      var inputs, outputs :| TupleOf(inputs) == Some(s.inputRoots) && TupleOf(outputs) == Some(s.outputRoots)
        && j == LooseStatement(s, inputs, outputs);
      var v := StatementValues(s)[4 := inputs][5 := outputs];
      ValuesOfObject(STATEMENT_KEYS, v);
      StatementValuesExact(v, s);
    }
  }

  /** The decoder accepts exactly the objects of valid receipts, except that it does not
      insist on arrays for the two root lists. */
  lemma DecoderExact(j: Json, r: Receipt, root: Receipt -> string)
    ensures ParseReceipt(j, root) == Some(r) <==>
      (ValidReceipt(r)
       && exists statement :: ReadsAs(statement, r.statement) && j == ObjectOf(RECEIPT_KEYS, ReceiptValues(r, root)[5 := statement]))
  {
    hide ValidRefText, ValidStatement, ParseStatement, ReadsAs, StatementValues;
    if ParseReceipt(j, root) == Some(r) {
      var v := ValuesOf(j, RECEIPT_KEYS).value;
      HexExact(v[3].s);
      StatementExact(v[5], r.statement);
      assert v == ReceiptValues(r, root)[5 := v[5]];
      assert j == ObjectOf(RECEIPT_KEYS, ReceiptValues(r, root)[5 := v[5]]);
    }
    if ValidReceipt(r) {
      forall statement | ReadsAs(statement, r.statement) && j == ObjectOf(RECEIPT_KEYS, ReceiptValues(r, root)[5 := statement])
        ensures ParseReceipt(j, root) == Some(r)
      {
        var v := ReceiptValues(r, root)[5 := statement];
        ValuesOfObject(RECEIPT_KEYS, v);
        HexRoundTrip(r.signature);
        StatementExact(statement, r.statement);
      }
    }
  }

  lemma TupleOfStrings(refs: seq<string>)
    ensures TupleOf(JArray(Strings(refs))) == Some(refs)
  {
    var items := Strings(refs);
    assert seq(|items|, i requires 0 <= i < |items| => items[i].s) == refs;
  }

  /** Storing and decoding a valid receipt gives it back. */
  lemma ReceiptRoundTrip(r: Receipt, root: Receipt -> string)
    requires ValidReceipt(r)
    ensures ParseReceipt(ReceiptObject(r, root), root) == Some(r)
  {
    var s := r.statement;
    var inputs, outputs := JArray(Strings(s.inputRoots)), JArray(Strings(s.outputRoots));
    TupleOfStrings(s.inputRoots);
    TupleOfStrings(s.outputRoots);
    assert StatementValues(s)[4 := inputs][5 := outputs] == StatementValues(s);
    var j := ObjectOf(STATEMENT_KEYS, StatementValues(s));
    assert j == LooseStatement(s, inputs, outputs);
    assert ReadsAs(j, s);
    assert ReceiptValues(r, root)[5 := j] == ReceiptValues(r, root);
    hide ParseReceipt, ReadsAs, LooseStatement, TupleOf, ValidReceipt, ReceiptValues, StatementValues;
    DecoderExact(ReceiptObject(r, root), r, root);
  }

  /** The exception is real: an object whose empty root list is an empty string decodes too. */
  lemma LooseExample(r: Receipt, root: Receipt -> string)
    requires ValidReceipt(r) && r.statement.inputRoots == []
    ensures var loose := LooseStatement(r.statement, JString(""), JArray(Strings(r.statement.outputRoots)));
      var j := ObjectOf(RECEIPT_KEYS, ReceiptValues(r, root)[5 := loose]);
      ParseReceipt(j, root) == Some(r) && j != ReceiptObject(r, root)
  {
    var loose := LooseStatement(r.statement, JString(""), JArray(Strings(r.statement.outputRoots)));
    var j := ObjectOf(RECEIPT_KEYS, ReceiptValues(r, root)[5 := loose]);
    TupleOfStrings(r.statement.outputRoots);
    assert |TupleOf(JString("")).value| == 0;
    assert TupleOf(JString("")) == Some([]);
    assert ReadsAs(loose, r.statement);
    assert loose.fields[4].value == JString("");
    assert ObjectOf(STATEMENT_KEYS, StatementValues(r.statement)).fields[4].value == JArray(Strings([]));
    assert j.fields[5].value == loose;
    assert ReceiptObject(r, root).fields[5].value == ObjectOf(STATEMENT_KEYS, StatementValues(r.statement));
    hide ParseReceipt, ReceiptObject, ReadsAs, TupleOf, ValidReceipt, ReceiptValues, StatementValues;
    DecoderExact(j, r, root);
  }
}
