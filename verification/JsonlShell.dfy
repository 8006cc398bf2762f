/** The JSONL boundary: bounded reads over a byte stream, and responses that depend only on
    the LF-delimited records, never on where a read happened to stop. */
module JsonlShell {
  import opened Prelude
  import opened CanonicalJson
  import opened Codec
  import JsonParser
  import Utf8

  const LF: byte := 10
  const CR: byte := 13
  const MAX_REQUEST_BYTES := 1_048_576

  /** The digest of some bytes, symbolic. */
  datatype InputHash = Sha256(bytes: seq<byte>)

  /** A request parsed at the boundary, or refused for its size. A record measured in full
      reports its size, one drained in chunks does not. */
  datatype ShellResponse =
    | Handled(parsed: BoundaryResult, inputHash: InputHash)
    | InputTooLarge(inputHash: InputHash, size: Option<nat>)

  predicate EndsWith(s: seq<byte>, b: byte) { s != [] && s[|s| - 1] == b }

  /** The record without one LF and an optional CR before it. */
  function StripDelimiter(line: seq<byte>): (payload: seq<byte>)
    ensures payload <= line && |line| - 2 <= |payload|
    ensures
      || (payload == line && !EndsWith(line, LF))
      || (payload + [LF] == line && !EndsWith(payload, CR))
      || payload + [CR, LF] == line
  {
    if !EndsWith(line, LF) then line
    else
      var payload := line[..|line| - 1];
      if EndsWith(payload, CR) then payload[..|payload| - 1] else payload
  }

  // ----- What the shell must answer -----------------------------------------------------------------------

  /** Length of the first record: through the first LF, or to the end of the stream. */
  function RecordLength(s: seq<byte>): (n: nat)
    requires s != []
    ensures 0 < n <= |s|
    ensures LF !in s[..n - 1]
    ensures n < |s| ==> s[n - 1] == LF
  {
    if s[0] == LF || |s| == 1 then 1
    else
      var n := RecordLength(s[1..]);
      assert s[..n] == [s[0]] + s[1..][..n - 1];
      n + 1
  }

  function Records(s: seq<byte>): seq<seq<byte>> {
    if s == [] then [] else [s[..RecordLength(s)]] + Records(s[RecordLength(s)..])
  }

  /** The value of a request: canonical bytes of a JSON object. */
  function ReadRequest(payload: seq<byte>): BoundaryResult {
    var parsed := ParseBytes(payload);
    if parsed.Accepted? && !parsed.value.JObject? then Refused(JsonParser.NonCanonical) else parsed
  }

  /** The answer to one record, told by its own bytes. */
  function ResponseTo(line: seq<byte>): ShellResponse {
    var payload := StripDelimiter(line);
    if |payload| <= MAX_REQUEST_BYTES then Handled(ReadRequest(payload), Sha256(payload))
    else InputTooLarge(Sha256(payload),
                       if EndsWith(line, LF) && |line| <= MAX_REQUEST_BYTES + 2 then Some(|payload|) else None)
  }

  function Responses(records: seq<seq<byte>>): (out: seq<ShellResponse>)
    ensures |out| == |records|
  {
    if records == [] then [] else [ResponseTo(records[0])] + Responses(records[1..])
  }

  /** A record is refused for its size exactly when its stripped payload exceeds the limit,
      and either way the committed hash is that of the stripped payload. */
  lemma {:induction false} RefusedExactly(records: seq<seq<byte>>, k: nat)
    requires k < |records|
    ensures Responses(records)[k].InputTooLarge? <==> |StripDelimiter(records[k])| > MAX_REQUEST_BYTES
    ensures Responses(records)[k].inputHash == Sha256(StripDelimiter(records[k]))
  {
    if k > 0 { RefusedExactly(records[1..], k - 1); }
  }

  /** A record is accepted exactly when its payload is within the limit and is the canonical
      encoding of the object handed on. */
  lemma AcceptedExactly(line: seq<byte>, v: Json)
    ensures ResponseTo(line) == Handled(Accepted(v), Sha256(StripDelimiter(line)))
      <==> (|StripDelimiter(line)| <= MAX_REQUEST_BYTES && v.JObject? && Canonical(v) && StripDelimiter(line) == Utf8.Encode(Print(v)))
  {
    hide ParseBytes, Print, Canonical, StripDelimiter;
    BoundaryAcceptsExactly(StripDelimiter(line), v);
  }

  /** Records split the stream: joined together they give it back, each but the last ends in
      its only LF. */
  function Joined(records: seq<seq<byte>>): seq<byte> {
    if records == [] then [] else records[0] + Joined(records[1..])
  }

  lemma {:induction false} RecordsSplit(s: seq<byte>)
    ensures Joined(Records(s)) == s
    ensures forall k | 0 <= k < |Records(s)| ::
      && Records(s)[k] != []
      && LF !in Records(s)[k][..|Records(s)[k]| - 1]
      && (k < |Records(s)| - 1 ==> EndsWith(Records(s)[k], LF))
    decreases |s|
  {
    hide RecordLength;
    if s != [] {
      var n := RecordLength(s);
      RecordsSplit(s[n..]);
      assert s == s[..n] + s[n..];
      assert s[..n][..n - 1] == s[..n - 1];
    }
  }

  // ----- Reading ------------------------------------------------------------------------------------------

  /** What a bounded line read returns: bytes through the first LF, but no more than `limit`. */
  function NextLine(s: seq<byte>, limit: nat): (line: seq<byte>)
    ensures line <= s && |line| <= limit
    ensures line == [] <==> s == [] || limit == 0
    ensures s != [] && limit > 0 ==> |line| == if RecordLength(s) <= limit then RecordLength(s) else limit
  {
    if s == [] || limit == 0 then []
    else s[..if RecordLength(s) <= limit then RecordLength(s) else limit]
  }

  class Reader {
    const data: seq<byte>
    var pos: nat

    constructor (bytes: seq<byte>)
      ensures data == bytes && pos == 0
    {
      data, pos := bytes, 0;
    }

    method ReadLine(limit: nat) returns (line: seq<byte>)
      requires pos <= |data|
      modifies this
      ensures line == NextLine(data[old(pos)..], limit)
      ensures pos == old(pos) + |line| <= |data|
      ensures data[old(pos)..pos] == line
    {
      line := NextLine(data[pos..], limit);
      pos := pos + |line|;
    }
  }

  /** A read that did not end in LF and did not exhaust the stream leaves the record open. */
  lemma ReadShape(s: seq<byte>, limit: nat)
    requires s != [] && limit > 0
    ensures var line := NextLine(s, limit);
      && LF !in line[..|line| - 1]
      && (EndsWith(line, LF) ==> |line| == RecordLength(s))
      && (!EndsWith(line, LF) && |line| < limit ==> line == s && RecordLength(s) == |s|)
  {
    var line, n := NextLine(s, limit), RecordLength(s);
    assert line == s[..|line|];
    assert forall k | 0 <= k < n - 1 :: s[k] != LF by {
      forall k | 0 <= k < n - 1 ensures s[k] != LF { assert s[..n - 1][k] == s[k]; }
    }
    assert line != [] && s[|line| - 1] == line[|line| - 1];
  }

  /** The first record of `s`, recognised: it holds no LF but perhaps its last byte, and it
      ends in LF or ends the stream. */
  lemma IsFirstRecord(s: seq<byte>, n: nat)
    requires 0 < n <= |s| && LF !in s[..n - 1] && (s[n - 1] == LF || n == |s|)
    ensures RecordLength(s) == n
  {
    var m := RecordLength(s);
    assert forall k {:trigger s[k]} | 0 <= k < n - 1 :: s[..n - 1][k] == s[k];
    assert forall k {:trigger s[k]} | 0 <= k < m - 1 :: s[..m - 1][k] == s[k];
  }

  // ----- Draining an oversized record -----------------------------------------------------------------------

  /** What the drain has hashed so far: every byte before the current chunk, except one CR
      held back because it may belong to the delimiter. */
  ghost predicate Hashed(before: seq<byte>, digest: seq<byte>, pendingCr: bool) {
    && LF !in before
    && before == digest + (if pendingCr then [CR] else [])
    && (pendingCr || !EndsWith(before, CR))
  }

  /** A chunk that starts after the held-back CR strips on its own. */
  lemma StripConcat(before: seq<byte>, chunk: seq<byte>)
    requires EndsWith(chunk, LF) && (EndsWith(before, CR) ==> |chunk| > 1)
    ensures StripDelimiter(before + chunk) == before + StripDelimiter(chunk)
  {
    var all := before + chunk;
    assert all[..|all| - 1] == before + chunk[..|chunk| - 1];
    if |chunk| > 1 {
      assert all[|all| - 2] == chunk[|chunk| - 2];
    }
  }

  lemma StripCrLf(digest: seq<byte>)
    ensures StripDelimiter(digest + [CR] + [LF]) == digest
  {
    var all := digest + [CR] + [LF];
    assert all[..|all| - 1] == digest + [CR];
    assert (digest + [CR])[..|digest|] == digest;
  }

  lemma StripOpen(s: seq<byte>)
    requires LF !in s
    ensures StripDelimiter(s) == s
  {
  }

  lemma GrowHashed(before: seq<byte>, chunk: seq<byte>, digest: seq<byte>, pendingCr: bool)
    requires LF !in before && chunk != [] && LF !in chunk[..|chunk| - 1] && !EndsWith(chunk, LF)
    requires pendingCr <==> EndsWith(chunk, CR)
    requires digest == before + (if pendingCr then chunk[..|chunk| - 1] else chunk)
    ensures Hashed(before + chunk, digest, pendingCr)
  {
    assert chunk == chunk[..|chunk| - 1] + [chunk[|chunk| - 1]];
    assert (before + chunk)[|before + chunk| - 1] == chunk[|chunk| - 1];
  }

  /** The bytes drained are the first record once they end in LF or reach the end. */
  lemma RecordEnds(s: seq<byte>, before: seq<byte>, chunk: seq<byte>)
    requires before + chunk <= s && chunk != [] && LF !in before && LF !in chunk[..|chunk| - 1]
    requires EndsWith(chunk, LF) || before + chunk == s
    ensures s != [] && RecordLength(s) == |before + chunk| && s[..RecordLength(s)] == before + chunk
  {
    var n := |before + chunk|;
    assert s[..n] == before + chunk;
    assert s[..n - 1] == before + chunk[..|chunk| - 1];
    assert s[n - 1] == chunk[|chunk| - 1];
    IsFirstRecord(s, n);
  }

  lemma HeadOfInit(chunk: seq<byte>)
    ensures |chunk| > 1 ==> chunk[0] in chunk[..|chunk| - 1]
  {
    if |chunk| > 1 { assert chunk[..|chunk| - 1][0] == chunk[0]; }
  }

  lemma NoLf(line: seq<byte>)
    requires line != [] && LF !in line[..|line| - 1] && !EndsWith(line, LF)
    ensures LF !in line
  {
    assert line == line[..|line| - 1] + [line[|line| - 1]];
  }

  /** Take one chunk into the digest; done when the record's LF is reached. */
  method Absorb(ghost before: seq<byte>, digest: seq<byte>, pendingCr: bool, chunk: seq<byte>)
    returns (next: seq<byte>, pending: bool, done: bool)
    requires Hashed(before, digest, pendingCr) && chunk != [] && LF !in chunk[..|chunk| - 1]
    ensures LF !in before && (done <==> EndsWith(chunk, LF))
    ensures done ==> next == StripDelimiter(before + chunk)
    ensures !done ==> Hashed(before + chunk, next, pending)
  {
    hide StripDelimiter;
    next, pending, done := digest, pendingCr, true;
    if pending {
      if chunk[0] == LF {
        HeadOfInit(chunk);
        assert chunk == [LF];
        assert before + chunk == digest + [CR] + [LF];
        StripCrLf(digest);
        return;
      }
      next := next + [CR];
      pending := false;
    }
    assert before == next;
    if EndsWith(chunk, LF) {
      StripConcat(before, chunk);
      next := next + StripDelimiter(chunk);
      return;
    }
    done := false;
    if EndsWith(chunk, CR) {
      next := next + chunk[..|chunk| - 1];
      pending := true;
    } else {
      next := next + chunk;
    }
    GrowHashed(before, chunk, next, pending);
  }

  lemma Stretch(data: seq<byte>, start: nat, mid: nat, end: nat)
    requires start <= mid <= end <= |data|
    ensures data[start..][..mid - start] + data[mid..end] == data[start..][..end - start]
  {
  }

  lemma NothingHashed()
    ensures Hashed([], [], false)
  {
  }

  /** At the end of the stream the bytes hashed, with a carriage return held back, are all of
      the record, and its own payload. */
  lemma StreamEnds(s: seq<byte>, digest: seq<byte>, pendingCr: bool)
    requires s != [] && Hashed(s, digest, pendingCr)
    ensures RecordLength(s) == |s| && s[..|s|] == s
    ensures StripDelimiter(s) == (if pendingCr then digest + [CR] else digest)
  {
    hide RecordLength, StripDelimiter;
    StripOpen(s);
    assert [] + s == s;
    RecordEnds(s, [], s);
  }

  /** Hash the payload of a record whose first chunk is already read, reading to its end. */
  method HashOversized(first: seq<byte>, reader: Reader) returns (hash: InputHash)
    requires reader.pos <= |reader.data| && |first| <= reader.pos && first != []
    requires first == reader.data[reader.pos - |first|..reader.pos] && LF !in first
    modifies reader
    ensures reader.pos <= |reader.data|
    ensures var s := reader.data[old(reader.pos) - |first|..];
      && s != [] && reader.pos == old(reader.pos) - |first| + RecordLength(s)
      && hash == Sha256(StripDelimiter(s[..RecordLength(s)]))
  {
    hide RecordLength, StripDelimiter, NextLine, Hashed;
    var digest: seq<byte>, pendingCr := [], false;
    var chunk := first;
    NothingHashed();
    ghost var start := reader.pos - |first|;
    ghost var before: seq<byte> := [];
    ghost var s := reader.data[start..];
    assert before + chunk == chunk;
    while true
      invariant start < reader.pos <= |reader.data| && chunk != []
      invariant s[..reader.pos - start] == before + chunk
      invariant Hashed(before, digest, pendingCr)
      invariant LF !in chunk[..|chunk| - 1]
      decreases |reader.data| - reader.pos
    {
      var done;
      digest, pendingCr, done := Absorb(before, digest, pendingCr, chunk);
      if done {
        RecordEnds(s, before, chunk);
        break;
      }
      before := before + chunk;
      ghost var at := reader.pos;
      chunk := reader.ReadLine(MAX_REQUEST_BYTES + 2);
      if chunk == [] {
        assert s == before;
        StreamEnds(s, digest, pendingCr);
        if pendingCr { digest := digest + [CR]; }
        break;
      }
      ReadShape(reader.data[at..], MAX_REQUEST_BYTES + 2);
      Stretch(reader.data, start, at, reader.pos);
    }
    hash := Sha256(digest);
  }

  // ----- The shell ------------------------------------------------------------------------------------------

  /** Size check and hash of one complete record's payload. */
  function ProcessLine(payload: seq<byte>): ShellResponse {
    if |payload| > MAX_REQUEST_BYTES then InputTooLarge(Sha256(payload), Some(|payload|))
    else Handled(ReadRequest(payload), Sha256(payload))
  }

  /** Read one record and answer it; None at the end of the stream. */
  method AnswerNext(reader: Reader) returns (response: Option<ShellResponse>)
    requires reader.pos <= |reader.data|
    modifies reader
    ensures reader.pos <= |reader.data|
    ensures var s := reader.data[old(reader.pos)..];
      if s == [] then response.None? && reader.pos == old(reader.pos)
      else reader.pos == old(reader.pos) + RecordLength(s) && response == Some(ResponseTo(s[..RecordLength(s)]))
  {
    hide RecordLength, StripDelimiter, NextLine, ResponseTo, ReadRequest;
    ghost var s := reader.data[reader.pos..];
    var line := reader.ReadLine(MAX_REQUEST_BYTES + 2);
    if line == [] { return None; }
    ReadShape(s, MAX_REQUEST_BYTES + 2);
    if |line| > MAX_REQUEST_BYTES && !EndsWith(line, LF) {
      OversizedRecord(s, line);
      var hash := HashOversized(line, reader);
      return Some(InputTooLarge(hash, None));
    }
    CompleteRecord(s, line);
    return Some(ProcessLine(StripDelimiter(line)));
  }

  /** One response per record of the whole stream, in order. */
  method RunShell(reader: Reader) returns (out: seq<ShellResponse>)
    requires reader.pos == 0
    modifies reader
    ensures out == Responses(Records(reader.data))
  {
    assert Responses(Records([])) == [];
    hide RecordLength, Records, Responses, ResponseTo;
    out := [];
    ghost var data := reader.data;
    assert data[0..] == data;
    while true
      invariant reader.pos <= |data|
      invariant out + Responses(Records(data[reader.pos..])) == Responses(Records(data))
      decreases |data| - reader.pos
    {
      ghost var s := data[reader.pos..];
      var response := AnswerNext(reader);
      if response.None? { break; }
      OneMore(s);
      assert data[reader.pos..] == s[RecordLength(s)..];
      Regroup(out, response.value, Responses(Records(data[reader.pos..])));
      out := out + [response.value];
    }
  }

  lemma Regroup(a: seq<ShellResponse>, x: ShellResponse, b: seq<ShellResponse>)
    ensures a + ([x] + b) == a + [x] + b
  {
  }

  lemma OneMore(s: seq<byte>)
    requires s != []
    ensures Responses(Records(s)) == [ResponseTo(s[..RecordLength(s)])] + Responses(Records(s[RecordLength(s)..]))
  {
    assert Records(s)[1..] == Records(s[RecordLength(s)..]);
  }

  /** A read that filled its limit, or hit the end past the limit, without an LF opens a
      record that is too large whatever follows. */
  lemma OversizedRecord(s: seq<byte>, line: seq<byte>)
    requires s != [] && line == NextLine(s, MAX_REQUEST_BYTES + 2)
    requires |line| > MAX_REQUEST_BYTES && !EndsWith(line, LF)
    ensures var record := s[..RecordLength(s)];
      ResponseTo(record) == InputTooLarge(Sha256(StripDelimiter(record)), None)
    ensures LF !in line
  {
    ReadShape(s, MAX_REQUEST_BYTES + 2);
    NoLf(line);
    var record := s[..RecordLength(s)];
    assert line <= s;
    if EndsWith(record, LF) { assert |record| > |line|; }
  }

  lemma CompleteRecord(s: seq<byte>, line: seq<byte>)
    requires s != [] && line == NextLine(s, MAX_REQUEST_BYTES + 2)
    requires |line| <= MAX_REQUEST_BYTES || EndsWith(line, LF)
    ensures line == s[..RecordLength(s)] && ResponseTo(line) == ProcessLine(StripDelimiter(line))
  {
    ReadShape(s, MAX_REQUEST_BYTES + 2);
  }
}
