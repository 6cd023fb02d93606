/** The JSONL metrics file discipline (src/jsonl.rs): one header, then samples.
    A line is abstract: blank, not JSON, or a JSON value. */
module Jsonl {
  import opened Wrappers

  /** A JSON number by its representation: 1 and 1.0 are different values. */
  datatype Num = PosInt(n: nat) | NegInt(i: int) | Float(r: real)

  datatype Value =
    | Null
    | Bool(b: bool)
    | Number(n: Num)
    | Str(s: string)
    | Arr(items: seq<Value>)
    | Object(fields: map<string, Value>)
  {

    function Get(key: string): Option<Value> {
      if Object? && key in fields then Some(fields[key]) else None
    }

    predicate NonEmptyString(key: string) {
      Get(key).Some? && Get(key).value.Str? && Get(key).value.s != ""
    }
  }

  const SCHEMA := "heimdall-jsonl-v1"

  const HEADER_ONLY_KEYS := ["schema", "artifact_type", "node_id", "producer", "flags"]

  datatype JsonlError = InvalidInput | InvalidData | Locked

  predicate IsHeader(v: Value) {
    && v.Get("schema") == Some(Str(SCHEMA))
    && v.NonEmptyString("artifact_type") && v.NonEmptyString("node_id") && v.NonEmptyString("producer")
    && v.Get("created_at").Some? && v.Get("created_at").value.Number?
    && v.Get("flags").Some? && v.Get("flags").value.Object?
  }

  predicate RepeatsHeaderField(v: Value) {
    exists i :: 0 <= i < |HEADER_ONLY_KEYS| && v.Get(HEADER_ONLY_KEYS[i]).Some?
  }

  /** validate_sample_row lets it through. */
  predicate IsSample(v: Value) {
    v.Object? && !RepeatsHeaderField(v)
  }

  predicate Compatible(existing: Value, expected: Value) {
    forall i :: 0 <= i < |HEADER_ONLY_KEYS| ==> existing.Get(HEADER_ONLY_KEYS[i]) == expected.Get(HEADER_ONLY_KEYS[i])
  }

  /** One line: nothing but whitespace JSON skips (space, tab, CR); nothing but
      whitespace, some of which JSON does not skip (a form feed, U+00A0); neither
      blank nor JSON; or a JSON value. */
  datatype Line = Blank | OtherBlank | Garbage | Json(value: Value) {

    /** The line is empty once trimmed. */
    predicate IsBlank() {
      Blank? || OtherBlank?
    }
  }

  /** A file: its newline-terminated lines, and what follows the last newline. */
  datatype File = File(lines: seq<Line>, tail: Option<Line>) {

    /** What a line reader yields. */
    function Lines(): seq<Line> {
      if tail.Some? then lines + [tail.value] else lines
    }
  }

  // ---------------------------------------------------------------- validation

  /** The non-blank lines. */
  function Rows(lines: seq<Line>): seq<Line> {
    if lines == [] then []
    else (if lines[0].IsBlank() then [] else [lines[0]]) + Rows(lines[1..])
  }

  lemma {:induction false} RowsConcat(a: seq<Line>, b: seq<Line>)
    ensures Rows(a + b) == Rows(a) + Rows(b)
    decreases a
  {
    if a == [] {
      assert a + b == b;
    } else {
      var first := if a[0].IsBlank() then [] else [a[0]];
      RowsConcat(a[1..], b);
      assert (a + b)[0] == a[0] && (a + b)[1..] == a[1..] + b;
      assert Rows(a + b) == first + Rows((a + b)[1..]) && Rows(a) == first + Rows(a[1..]);
    }
  }

  lemma RowsSnoc(a: seq<Line>, line: Line)
    ensures Rows(a + [line]) == if line.IsBlank() then Rows(a) else Rows(a) + [line]
  {
    RowsConcat(a, [line]);
    assert [line][1..] == [] && Rows([line]) == (if line.IsBlank() then [] else [line]) + Rows([]);
  }

  predicate RowOk(row: Line) {
    row.Json? && !RepeatsHeaderField(row.value)
  }

  /** What a scan accepts and returns: nothing for no rows, the first row when it is
      a header and, if samples are scanned, every later row parses and repeats no
      header field. */
  function Scan(rows: seq<Line>, scanSamples: bool): Result<Option<Value>, JsonlError> {
    if rows == [] then Ok(None)
    else if !rows[0].Json? || !IsHeader(rows[0].value) then Err(InvalidData)
    else if scanSamples && exists i :: 1 <= i < |rows| && !RowOk(rows[i]) then Err(InvalidData)
    else Ok(Some(rows[0].value))
  }

  /** validate_header_reader: one pass with a count of non-empty lines. */
  method ValidateHeaderReader(lines: seq<Line>, scanSamples: bool) returns (r: Result<Option<Value>, JsonlError>)
    ensures r == Scan(Rows(lines), scanSamples)
  {
    var nonEmptyLines, header: Option<Value> := 0, None;
    ghost var rows := Rows(lines);
    var i := 0;
    while i < |lines|
      invariant i <= |lines| && nonEmptyLines <= |rows| && rows[nonEmptyLines..] == Rows(lines[i..])
      invariant nonEmptyLines == 0 <==> header == None
      invariant nonEmptyLines > 0 ==>
        scanSamples && rows[0].Json? && IsHeader(rows[0].value) && header == Some(rows[0].value)
      invariant forall k :: 1 <= k < nonEmptyLines ==> RowOk(rows[k])
    {
      var line := lines[i];
      assert lines[i..][1..] == lines[i + 1..];
      i := i + 1;
      if line.IsBlank() {
        continue;
      }
      assert rows[nonEmptyLines] == line && rows[nonEmptyLines..][1..] == rows[nonEmptyLines + 1..];
      nonEmptyLines := nonEmptyLines + 1;
      if line.Garbage? {
        return Err(InvalidData);
      }
      if nonEmptyLines == 1 {
        if !IsHeader(line.value) {
          return Err(InvalidData);
        }
        header := Some(line.value);
        if !scanSamples {
          break;
        }
        continue;
      }
      if RepeatsHeaderField(line.value) {
        return Err(InvalidData);
      }
    }
    return Ok(header);
  }

  // ---------------------------------------------------------------- writing

  /** Appending a line: it starts a new one only after a newline; otherwise it runs
      into what is there, and is JSON only behind whitespace JSON skips. */
  function Written(f: File, v: Value): File {
    File(f.lines + [if f.tail.None? || f.tail.value.Blank? then Json(v) else Garbage], None)
  }

  /** ensure_header_in_locked_file. */
  function EnsureHeader(f: File, header: Value, scanSamples: bool): (File, Result<(), JsonlError>) {
    match Scan(Rows(f.Lines()), scanSamples)
    case Err(e) => (f, Err(e))
    case Ok(None) => (Written(f, header), Ok(()))
    case Ok(Some(existing)) => (f, if Compatible(existing, header) then Ok(()) else Err(InvalidData))
  }

  /** The file, and whether a stateful writer holds its lock. */
  datatype State = State(file: File, locked: bool)

  datatype Op =
    | Open(header: Value)
    | Append(sample: Value)
    | Close
    | EnsureSingleHeader(header: Value)
    | AppendStateless(header: Value, sample: Value)

  /** MetricsJsonlWriter::open, MetricsJsonlWriter::append_sample_row, dropping the
      writer, ensure_single_header and append_jsonl_sample_row. */
  function Do(s: State, op: Op): (State, Result<(), JsonlError>) {
    match op
    case Open(header) =>
      if !IsHeader(header) then (s, Err(InvalidInput))
      else if s.locked then (s, Err(Locked))
      else
        var (f, r) := EnsureHeader(s.file, header, true);
        (State(f, r.Ok?), r)
    case Append(sample) =>
      if !s.locked then (s, Err(Locked))
      else if !IsSample(sample) then (s, Err(InvalidInput))
      else (s.(file := Written(s.file, sample)), Ok(()))
    case Close => (s.(locked := false), Ok(()))
    case EnsureSingleHeader(header) =>
      if !IsHeader(header) then (s, Err(InvalidInput))
      else if s.locked then (s, Err(Locked))
      else
        var (f, r) := EnsureHeader(s.file, header, true);
        (s.(file := f), r)
    case AppendStateless(header, sample) =>
      if !IsHeader(header) || !IsSample(sample) then (s, Err(InvalidInput))
      else if s.locked then (s, Err(Locked))
      else
        var (f, r) := EnsureHeader(s.file, header, false);
        if r.Err? then (s.(file := f), r) else (s.(file := Written(f, sample)), Ok(()))
  }

  // ---------------------------------------------------------------- what is accepted

  /** A header row is an object with this schema, three non-empty names, a numeric time
      and an object of flags. */
  lemma HeaderExactly(v: Value)
    ensures IsHeader(v) <==>
      && v.Object? && "schema" in v.fields && v.fields["schema"] == Str("heimdall-jsonl-v1")
      && Named(v, "artifact_type") && Named(v, "node_id") && Named(v, "producer")
      && "created_at" in v.fields && v.fields["created_at"].Number?
      && "flags" in v.fields && v.fields["flags"].Object?
  {
  }

  predicate Named(v: Value, key: string) {
    v.Object? && key in v.fields && v.fields[key].Str? && v.fields[key].s != ""
  }

  predicate HeaderOnly(key: string) {
    key == "schema" || key == "artifact_type" || key == "node_id" || key == "producer" || key == "flags"
  }

  lemma HeaderOnlyIsListed(i: nat)
    requires i < |HEADER_ONLY_KEYS|
    ensures HeaderOnly(HEADER_ONLY_KEYS[i])
  {
  }

  lemma ListedAt(key: string) returns (i: nat)
    requires HeaderOnly(key)
    ensures i < |HEADER_ONLY_KEYS| && HEADER_ONLY_KEYS[i] == key
  {
    i := if key == "schema" then 0 else if key == "artifact_type" then 1 else if key == "node_id" then 2
         else if key == "producer" then 3 else 4;
  }

  /** A sample row is an object with none of the five keys that only headers have. */
  lemma SampleExactly(v: Value)
    ensures IsSample(v) <==> v.Object? && forall key :: key in v.fields ==> !HeaderOnly(key)
  {
    hide HEADER_ONLY_KEYS, HeaderOnly;
    if v.Object? && RepeatsHeaderField(v) {
      var i: nat :| i < |HEADER_ONLY_KEYS| && v.Get(HEADER_ONLY_KEYS[i]).Some?;
      HeaderOnlyIsListed(i);
    }
    forall key | v.Object? && key in v.fields && HeaderOnly(key) ensures RepeatsHeaderField(v) {
      var i := ListedAt(key);
      assert v.Get(HEADER_ONLY_KEYS[i]).Some?;
    }
  }

  /** Two headers agree when they have the same of those five keys, with equal values. */
  lemma CompatibleExactly(v: Value, w: Value)
    ensures Compatible(v, w) <==> forall key :: HeaderOnly(key) ==> v.Get(key) == w.Get(key)
  {
    hide HEADER_ONLY_KEYS, HeaderOnly;
    forall key | HeaderOnly(key) ensures Compatible(v, w) ==> v.Get(key) == w.Get(key) {
      var i := ListedAt(key);
    }
    forall i: nat | i < |HEADER_ONLY_KEYS| ensures HeaderOnly(HEADER_ONLY_KEYS[i]) {
      HeaderOnlyIsListed(i);
    }
  }

  // ---------------------------------------------------------------- whole runs

  /** Newline-terminated, and blank or passing the full scan. */
  ghost predicate Good(f: File) {
    f.tail.None? && Scan(Rows(f.lines), true).Ok?
  }

  /** While a writer is open there is a header. */
  ghost predicate Inv(s: State) {
    Good(s.file) && (s.locked ==> Rows(s.file.lines) != [])
  }

  /** On a good file the header-only check answers as the full scan does. */
  lemma HeaderCheckIsEnough(f: File, header: Value)
    requires Good(f)
    ensures Scan(Rows(f.Lines()), false) == Scan(Rows(f.Lines()), true)
    ensures EnsureHeader(f, header, false) == EnsureHeader(f, header, true)
  {
  }

  lemma WrittenRows(f: File, v: Value)
    requires f.tail.None?
    ensures Rows(Written(f, v).lines) == Rows(f.lines) + [Json(v)] && Written(f, v).tail.None?
  {
    RowsSnoc(f.lines, Json(v));
  }

  lemma SampleKeepsGood(f: File, sample: Value)
    requires Good(f) && Rows(f.lines) != [] && IsSample(sample)
    ensures Good(Written(f, sample)) && Rows(Written(f, sample).lines) == Rows(f.lines) + [Json(sample)]
  {
    WrittenRows(f, sample);
    var rows := Rows(Written(f, sample).lines);
    forall i | 1 <= i < |rows| ensures RowOk(rows[i]) {
      assert i < |rows| - 1 ==> rows[i] == Rows(f.lines)[i];
    }
  }

  lemma EnsureKeepsGood(f: File, header: Value, f': File, r: Result<(), JsonlError>)
    requires Good(f) && IsHeader(header) && (f', r) == EnsureHeader(f, header, true)
    ensures Good(f') && (r.Err? ==> f' == f)
    ensures r.Ok? ==> Rows(f'.lines) == if Rows(f.lines) == [] then [Json(header)] else Rows(f.lines)
  {
    if Rows(f.lines) == [] {
      WrittenRows(f, header);
    }
  }

  /** The rows one call adds when it is accepted. */
  function Added(op: Op, rows: seq<Line>): seq<Line> {
    match op
    case Open(header) => if rows == [] then [Json(header)] else []
    case EnsureSingleHeader(header) => if rows == [] then [Json(header)] else []
    case Append(sample) => [Json(sample)]
    case Close => []
    case AppendStateless(header, sample) => (if rows == [] then [Json(header)] else []) + [Json(sample)]
  }

  /** One call keeps the discipline: refused, it leaves the file as it was; accepted,
      it adds exactly its own rows at the end. */
  lemma CallKeepsInv(s: State, op: Op, s': State, r: Result<(), JsonlError>)
    requires Inv(s) && (s', r) == Do(s, op)
    ensures Inv(s')
    ensures r.Err? ==> s'.file == s.file
    ensures r.Ok? ==> Rows(s'.file.lines) == Rows(s.file.lines) + Added(op, Rows(s.file.lines))
  {
    match op {
      case Open(header) =>
        if IsHeader(header) && !s.locked {
          EnsureKeepsGood(s.file, header, s'.file, r);
        }
      case Append(sample) =>
        if s.locked && IsSample(sample) {
          SampleKeepsGood(s.file, sample);
        }
      case Close =>
      case EnsureSingleHeader(header) =>
        if IsHeader(header) && !s.locked {
          EnsureKeepsGood(s.file, header, s'.file, r);
        }
      case AppendStateless(header, sample) =>
        if IsHeader(header) && IsSample(sample) && !s.locked {
          HeaderCheckIsEnough(s.file, header);
          var (f, e) := EnsureHeader(s.file, header, false);
          EnsureKeepsGood(s.file, header, f, e);
          if e.Ok? {
            SampleKeepsGood(f, sample);
          }
        }
    }
  }

  /** The file has no rows yet, or its header agrees. */
  predicate Fits(f: File, header: Value) {
    Rows(f.lines) == [] || (Rows(f.lines)[0].Json? && Compatible(Rows(f.lines)[0].value, header))
  }

  /** On a good file, when each call is accepted: headers and samples must be well
      formed, the stateless calls and opening need the lock free and a file with no rows
      or a first row that agrees with the header, appending needs the writer's lock. */
  lemma AcceptedExactly(s: State, op: Op)
    requires Inv(s)
    ensures Do(s, op).1.Ok? <==> match op
      case Open(header) => IsHeader(header) && !s.locked && Fits(s.file, header)
      case EnsureSingleHeader(header) => IsHeader(header) && !s.locked && Fits(s.file, header)
      case AppendStateless(header, sample) =>
        IsHeader(header) && IsSample(sample) && !s.locked && Fits(s.file, header)
      case Append(sample) => IsSample(sample) && s.locked
      case Close => true
    ensures Do(s, op).1.Err? && !op.Append? ==>
      Do(s, op).1.error == if !IsHeader(op.header) || (op.AppendStateless? && !IsSample(op.sample)) then InvalidInput
                           else if s.locked then Locked
                           else InvalidData
    ensures Do(s, op).0.locked == match op
      case Open(_) => s.locked || Do(s, op).1.Ok?
      case Close => false
      case _ => s.locked
  {
    hide IsHeader, RepeatsHeaderField, Compatible;
  }

  function Run(s: State, ops: seq<Op>): State
    decreases ops
  {
    if ops == [] then s else Run(Do(s, ops[0]).0, ops[1..])
  }

  /** The sample a call adds, if it is accepted. */
  function Sampled(op: Op, r: Result<(), JsonlError>): seq<Line> {
    if r.Ok? && op.Append? then [Json(op.sample)]
    else if r.Ok? && op.AppendStateless? then [Json(op.sample)]
    else []
  }

  /** The samples of the accepted calls, in call order. */
  function Accepted(s: State, ops: seq<Op>): seq<Line>
    decreases ops
  {
    if ops == [] then []
    else
      var (s', r) := Do(s, ops[0]);
      Sampled(ops[0], r) + Accepted(s', ops[1..])
  }

  /** Rows that grew by a header, if there was none, and then some samples. */
  ghost predicate Grew(before: seq<Line>, after: seq<Line>, samples: seq<Line>) {
    && (before != [] ==> after == before + samples)
    && (before == [] && after != [] ==> after[1..] == samples)
    && (after == [] ==> before == [] && samples == [])
  }

  lemma GrewTwice(a: seq<Line>, b: seq<Line>, c: seq<Line>, x: seq<Line>, y: seq<Line>)
    requires Grew(a, b, x) && Grew(b, c, y)
    ensures Grew(a, c, x + y)
  {
    if a != [] {
      assert c == a + (x + y);
    } else if b != [] {
      assert c[1..] == b[1..] + y;
    } else {
      assert x + y == y;
    }
  }

  /** From a missing, empty or fully valid newline-terminated file, any sequence of
      accepted and refused calls leaves a file that is still empty or passes the full
      scan, whose header never changes once present, and whose samples are the old
      ones followed by the accepted ones in call order. */
  lemma {:induction false} RunKeepsFileValid(s: State, ops: seq<Op>, end: State)
    requires Inv(s) && end == Run(s, ops)
    ensures Inv(end)
    ensures Grew(Rows(s.file.lines), Rows(end.file.lines), Accepted(s, ops))
    ensures Rows(end.file.lines) != [] ==>
      Rows(end.file.lines)[0].Json? && IsHeader(Rows(end.file.lines)[0].value)
    decreases ops
  {
    hide Do, Scan, IsHeader, Good;
    var before := Rows(s.file.lines);
    if ops == [] {
      assert before + [] == before;
      if before != [] {
        StartsWithHeader(s.file);
      }
    } else {
      var s', r := Do(s, ops[0]).0, Do(s, ops[0]).1;
      CallKeepsInv(s, ops[0], s', r);
      var added := Sampled(ops[0], r);
      CallGrows(s, ops[0], s', r);
      RunKeepsFileValid(s', ops[1..], end);
      GrewTwice(before, Rows(s'.file.lines), Rows(end.file.lines), added, Accepted(s', ops[1..]));
    }
  }

  lemma CallGrows(s: State, op: Op, s': State, r: Result<(), JsonlError>)
    requires Inv(s) && (s', r) == Do(s, op)
    ensures Grew(Rows(s.file.lines), Rows(s'.file.lines), Sampled(op, r))
  {
    CallKeepsInv(s, op, s', r);
    var before := Rows(s.file.lines);
    assert before + [] == before;
    if r.Ok? && op.AppendStateless? && before == [] {
      assert Rows(s'.file.lines) == [Json(op.header)] + [Json(op.sample)];
    }
  }

  lemma StartsWithHeader(f: File)
    requires Good(f) && Rows(f.lines) != []
    ensures Rows(f.lines)[0].Json? && IsHeader(Rows(f.lines)[0].value)
  {
  }

  /** The end of the file matters: an accepted append to a file that passes the full
      scan keeps it passing exactly when the file ends in a newline or, behind its
      last newline, in nothing but whitespace JSON skips. */
  lemma AppendNeedsNewline(f: File, header: Value, sample: Value, f': File)
    requires IsHeader(header) && IsSample(sample) && Scan(Rows(f.Lines()), true).Ok?
    requires (State(f', false), Ok(())) == Do(State(f, false), AppendStateless(header, sample))
    ensures Scan(Rows(f'.Lines()), true).Ok? <==> f.tail.None? || f.tail.value.Blank?
  {
    if f.tail.None? {
      CallKeepsInv(State(f, false), AppendStateless(header, sample), State(f', false), Ok(()));
    } else {
      RowsSnoc(f.lines, f.tail.value);
      if f.tail.value.Blank? {
        var trimmed := File(f.lines, None);
        assert Written(f, header) == Written(trimmed, header) && Written(f, sample) == Written(trimmed, sample);
        CallKeepsInv(State(trimmed, false), AppendStateless(header, sample), State(f', false), Ok(()));
      } else {
        BadTailSpoils(f, header, sample, f');
      }
    }
  }

  /** Behind any other tail the first line written is not JSON. */
  lemma BadTailSpoils(f: File, header: Value, sample: Value, f': File)
    requires IsHeader(header) && Scan(Rows(f.Lines()), true).Ok? && f.tail.Some? && !f.tail.value.Blank?
    requires (State(f', false), Ok(())) == Do(State(f, false), AppendStateless(header, sample))
    ensures Scan(Rows(f'.Lines()), true).Err?
  {
    hide IsHeader, IsSample, RepeatsHeaderField, Compatible, Rows;
    RowsSnoc(f.lines, f.tail.value);
    RowsSnoc(f.lines, Garbage);
    var rows := Rows(f.lines) + [Garbage];
    if Rows(f.Lines()) == [] {
      RowsSnoc(f.lines + [Garbage], Json(sample));
      assert Rows(f'.Lines()) == [Garbage] + [Json(sample)];
    } else {
      assert Rows(f'.Lines()) == rows && rows[|rows| - 1] == Garbage;
    }
  }

  /** A header and a sample the writers accept. */
  lemma SomeRows() returns (header: Value, sample: Value)
    ensures IsHeader(header) && IsSample(sample)
  {
    header := Object(map[
      "schema" := Str(SCHEMA), "artifact_type" := Str("mcrx-network"), "node_id" := Str("client-0001"),
      "producer" := Str("mcrx-core"), "created_at" := Number(Float(0.0)), "flags" := Object(map[])]);
    sample := Object(map["packets" := Number(PosInt(1))]);
  }

  /** Such a file, with only a header and no newline after it: the append is accepted
      and the file no longer passes any scan. */
  lemma UnterminatedHeader() returns (header: Value, sample: Value, f: File, f': File)
    ensures IsHeader(header) && IsSample(sample)
    ensures f == File([], Some(Json(header))) && Scan(Rows(f.Lines()), true) == Ok(Some(header))
    ensures (State(f', false), Ok(())) == Do(State(f, false), AppendStateless(header, sample))
    ensures Scan(Rows(f'.Lines()), false) == Err(InvalidData)
  {
    hide IsHeader, IsSample, Compatible;
    header, sample := SomeRows();
    f := File([], Some(Json(header)));
    f' := Written(f, sample);
    RowsSnoc([], Json(header));
    RowsSnoc([], Garbage);
    SelfCompatible(header);
    assert [] + [Json(header)] == [Json(header)] && [] + [Garbage] == [Garbage];
  }

  lemma SelfCompatible(header: Value)
    ensures Compatible(header, header)
  {
  }

  /** A file that ends in blanks and fails all the same: behind the header's newline
      stands a form feed, which the reader trims away and JSON does not skip. With no
      header yet, it is the header that is spoilt. */
  lemma TrailingFormFeed(header: Value, sample: Value, f: File, f': File)
    requires IsHeader(header) && IsSample(sample)
    requires f == File([Json(header)], Some(OtherBlank)) || f == File([], Some(OtherBlank))
    requires f' == Do(State(f, false), AppendStateless(header, sample)).0.file
    ensures Scan(Rows(f.Lines()), true).Ok?
    ensures Do(State(f, false), AppendStateless(header, sample)).1 == Ok(())
    ensures Scan(Rows(f'.Lines()), true) == Err(InvalidData)
  {
    RowsSnoc(f.lines, OtherBlank);
    RowsSnoc([], Json(header));
    assert [] + [Json(header)] == [Json(header)] && Rows([]) == [];
    SelfCompatible(header);
    BadTailSpoils(f, header, sample, f');
  }

  // ---------------------------------------------------------------- the writer

  /** A metrics file and the lock on it. */
  class MetricsFile {
    var lines: seq<Line>
    var tail: Option<Line>
    var locked: bool

    function View(): State
      reads this
    {
      State(File(lines, tail), locked)
    }

    constructor (f: File)
      ensures View() == State(f, false)
    {
      lines, tail, locked := f.lines, f.tail, false;
    }

    method WriteJsonLine(v: Value)
      modifies `lines, `tail
      ensures View().file == Written(old(View()).file, v)
    {
      var line := if tail.None? || tail.value.Blank? then Json(v) else Garbage;
      lines := lines + [line];
      tail := None;
    }

    method EnsureHeaderInLockedFile(header: Value, scanSamples: bool) returns (r: Result<(), JsonlError>)
      modifies `lines, `tail
      ensures (View().file, r) == EnsureHeader(old(View()).file, header, scanSamples)
    {
      var existing := ValidateHeaderReader(View().file.Lines(), scanSamples);
      match existing {
        case Err(e) => return Err(e);
        case Ok(None) =>
          WriteJsonLine(header);
          return Ok(());
        case Ok(Some(found)) =>
          return if Compatible(found, header) then Ok(()) else Err(InvalidData);
      }
    }

    /** Opens a stateful writer; on success it holds the lock until it is dropped. */
    method OpenWriter(header: Value) returns (r: Result<(), JsonlError>)
      modifies this
      ensures (View(), r) == Do(old(View()), Open(header))
    {
      if !IsHeader(header) {
        return Err(InvalidInput);
      }
      if locked {
        return Err(Locked);
      }
      r := EnsureHeaderInLockedFile(header, true);
      locked := r.Ok?;
    }

    method EnsureSingle(header: Value) returns (r: Result<(), JsonlError>)
      modifies `lines, `tail
      ensures (View(), r) == Do(old(View()), EnsureSingleHeader(header))
    {
      if !IsHeader(header) {
        return Err(InvalidInput);
      }
      if locked {
        return Err(Locked);
      }
      r := EnsureHeaderInLockedFile(header, true);
    }

    method AppendSampleRow(sample: Value) returns (r: Result<(), JsonlError>)
      modifies `lines, `tail
      ensures (View(), r) == Do(old(View()), Append(sample))
    {
      if !locked {
        return Err(Locked);
      }
      if !IsSample(sample) {
        return Err(InvalidInput);
      }
      WriteJsonLine(sample);
      return Ok(());
    }

    method AppendJsonlSampleRow(header: Value, sample: Value) returns (r: Result<(), JsonlError>)
      modifies `lines, `tail
      ensures (View(), r) == Do(old(View()), AppendStateless(header, sample))
    {
      if !IsHeader(header) || !IsSample(sample) {
        return Err(InvalidInput);
      }
      if locked {
        return Err(Locked);
      }
      r := EnsureHeaderInLockedFile(header, false);
      if r.Ok? {
        WriteJsonLine(sample);
        r := Ok(());
      }
    }
  }
}
