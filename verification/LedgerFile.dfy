/** The ledger file: what `append` accepts, `records` reads back, and how much of
    it. Encoding JSON as text and back is a parameter; the node count is the one of
    `JsonCounts`, which does not depend on the order of keys. */
module LedgerFile {
  import JsonCounts
  import opened JsonData
  import opened LedgerLines
  import opened LedgerRecords
  import opened Records
  import opened Sequences
  import opened Wrappers

  /** `json.dumps(..., sort_keys=True).encode("utf-8")`, `json.loads` of decoded
      bytes, and whether `json_node_count` returns. */
  datatype Codec = Codec(encode: Json -> Bytes, decode: Bytes -> Option<Json>, countable: Json -> bool)

  const READ_CHUNK := 64 * 1024

  datatype AppendError = LineTooLarge | NotCountable | NoProgress

  datatype LedgerError =
    | TooLarge
    | TooLongLine(lineNo: nat)
    | Undecodable(lineNo: nat)
    | BoundsExceeded(lineNo: nat)
    | Malformed(lineNo: nat, cause: RecordError)

  function ToJson(record: Record): Json {
    JDict(RecordToDict(record))
  }

  /** Escaped text holds no newline and is no blank line, and text read back is the
      value it was written from. Asked only of records whose nodes can be counted:
      others, such as those with unpaired surrogates, need not survive. */
  ghost predicate Faithful(codec: Codec) {
    && (forall j: Json {:trigger codec.countable(j)} :: codec.countable(j) <==> JsonCounts.Countable(j))
    && forall r: Record | codec.countable(ToJson(r)) ::
         var text := codec.encode(ToJson(r));
         NEWLINE !in text && !Blank(text) && codec.decode(text) == Some(ToJson(r))
  }

  /** `not raw.strip()`. */
  predicate Blank(line: Bytes) {
    forall i | 0 <= i < |line| :: 9 <= line[i] <= 13 || line[i] == 32
  }

  // ---------- writing ----------

  function Encoded(codec: Codec, record: Record): Bytes {
    codec.encode(ToJson(record)) + [NEWLINE]
  }

  function RejectionReason(codec: Codec, record: Record): Option<AppendError> {
    if |Encoded(codec, record)| > MAX_LEDGER_LINE_BYTES then Some(LineTooLarge)
    else if !codec.countable(ToJson(record)) then Some(NotCountable)
    else None
  }

  /** The file after the records were appended, one after the other. */
  function Log(codec: Codec, records: seq<Record>): Bytes {
    if records == [] then []
    else Log(codec, records[..|records| - 1]) + Encoded(codec, records[|records| - 1])
  }

  ghost predicate Accepted(codec: Codec, records: seq<Record>) {
    forall i | 0 <= i < |records| :: RejectionReason(codec, records[i]) == None
  }

  // ---------- reading ----------

  function ReadLine(codec: Codec, line: Bytes, lineNo: nat): Result<Record, LedgerError> {
    var payload := codec.decode(line);
    if payload.None? then Err(Undecodable(lineNo))
    else if !codec.countable(payload.value) then Err(BoundsExceeded(lineNo))
    else
      match RecordFromDict(payload.value)
      case Ok(record) => Ok(record)
      case Err(cause) => Err(Malformed(lineNo, cause))
  }

  datatype Reading = Reading(records: seq<Record>, error: Option<LedgerError>)

  /** The records of the lines, up to the first line that is none. */
  function ReadLines(codec: Codec, lines: seq<Bytes>): Reading {
    if lines == [] then Reading([], None)
    else
      var before, line := ReadLines(codec, lines[..|lines| - 1]), lines[|lines| - 1];
      if before.error.Some? || Blank(line) then before
      else
        match ReadLine(codec, line, |lines|)
        case Ok(record) => before.(records := before.records + [record])
        case Err(error) => before.(error := Some(error))
  }

  ghost predicate FirstTooLong(lines: seq<Bytes>, n: nat) {
    && n < |lines| && |lines[n]| > MAX_LEDGER_LINE_BYTES
    && forall i | 0 <= i < n :: |lines[i]| <= MAX_LEDGER_LINE_BYTES
  }

  /** Part of the line was written and nothing else was touched. */
  ghost predicate Torn(before: Bytes, line: Bytes, after: Bytes) {
    exists n: nat | n < |line| :: after == before + line[..n]
  }

  ghost predicate Yields(codec: Codec, lines: seq<Bytes>, reading: Reading) {
    ReadLines(codec, lines) == reading
  }

  /** What was read before line `n`, which is too long. */
  ghost predicate StoppedAt(codec: Codec, lines: seq<Bytes>, n: nat, records: seq<Record>, error: Option<LedgerError>)
    requires n <= |lines|
  {
    var before := ReadLines(codec, lines[..n]);
    records == before.records && error == (if before.error.Some? then before.error else Some(TooLongLine(n + 1)))
  }

  /** What one pass over a file of this content yields, and the error that ends it. */
  ghost predicate ReadOutcome(codec: Codec, content: Bytes, records: seq<Record>, error: Option<LedgerError>) {
    && (|content| > MAX_LEDGER_BYTES ==> records == [] && error == Some(TooLarge))
    && (Readable(content) ==> Yields(codec, Lines(content), Reading(records, error)))
    && (|content| <= MAX_LEDGER_BYTES && !Readable(content) ==>
        exists n: nat | FirstTooLong(Lines(content), n) :: StoppedAt(codec, Lines(content), n, records, error))
  }

  class Ledger {
    /** The bytes on disk; no file at all before the first append. */
    var file: Option<Bytes>

    constructor ()
      ensures file == None
    {
      file := None;
    }

    ghost function Content(): Bytes
      reads this
    {
      if file.Some? then file.value else []
    }

    /** Appends the whole line, however few bytes each write takes. A write that
        takes none leaves a torn line behind and is reported. */
    method Append(codec: Codec, record: Record) returns (error: Option<AppendError>)
      modifies this
      ensures RejectionReason(codec, record).Some? ==>
        error == RejectionReason(codec, record) && file == old(file)
      ensures error.None? ==> file == Some(old(Content()) + Encoded(codec, record))
      ensures RejectionReason(codec, record).None? && error.Some? ==>
        error == Some(NoProgress) && file.Some? && Torn(old(Content()), Encoded(codec, record), file.value)
    {
      error := RejectionReason(codec, record);
      if error.Some? {
        return;
      }
      var encoded := Encoded(codec, record);
      if file.None? {
        file := Some([]);
      }
      ghost var before := file.value;
      var view := encoded;
      ghost var at := 0;
      NothingAfter(before);
      while view != []
        invariant at <= |encoded| && view == encoded[at..]
        invariant file == Some(before + encoded[..at])
        decreases |view|
      {
        var written: int :| -1 <= written <= |view|;
        if written <= 0 {
          TornHere(before, encoded, at);
          error := Some(NoProgress);
          return;
        }
        WrittenStep(before, encoded, at, written);
        file := Some(file.value + view[..written]);
        view := view[written..];
        at := at + written;
      }
      assert encoded[..at] == encoded;
    }

    /** Records appended one after the other, as a round's verdicts are, up to the first
        one that cannot be: the file is then the log of those before it, behind what
        it held, with at most a torn line behind. */
    method AppendEach(codec: Codec, batch: seq<Record>) returns (kept: nat, error: Option<AppendError>)
      modifies this
      ensures kept <= |batch| && Accepted(codec, batch[..kept])
      ensures error.None? ==> kept == |batch|
      ensures error.None? || error.value != NoProgress ==> Content() == old(Content()) + Log(codec, batch[..kept])
      ensures error.Some? ==> kept < |batch| && (error.value != NoProgress ==> RejectionReason(codec, batch[kept]) == error)
      ensures error == Some(NoProgress) ==>
        && RejectionReason(codec, batch[kept]) == None
        && Torn(old(Content()) + Log(codec, batch[..kept]), Encoded(codec, batch[kept]), Content())
    {
      kept, error := 0, None;
      ghost var before := Content();
      NothingAfter(before);
      while kept < |batch|
        invariant kept <= |batch| && error.None? && Accepted(codec, batch[..kept])
        invariant Content() == before + Log(codec, batch[..kept])
      {
        error := Append(codec, batch[kept]);
        if error.Some? {
          return;
        }
        AppendExtendsLog(codec, batch[..kept], batch[kept]);
        TakeOneMore(batch, kept);
        Reassociate(before, Log(codec, batch[..kept]), Encoded(codec, batch[kept]));
        kept := kept + 1;
      }
      assert batch[..kept] == batch;
    }

    /** Everything yielded, and the error that ended it. `chunks` is how the reads
        happened to cut the file. */
    method Records(codec: Codec, chunks: seq<Bytes>) returns (records: seq<Record>, error: Option<LedgerError>)
      requires forall i | 0 <= i < |chunks| :: chunks[i] != []
      requires Flatten(chunks) == Content()
      ensures ReadOutcome(codec, Content(), records, error)
    {
      records, error := [], None;
      if file.None? {
        NothingToRead(codec);
        return;
      }
      if |file.value| > MAX_LEDGER_BYTES {
        error := Some(TooLarge);
        return;
      }
      var lines, refused, peak := BoundedLines(chunks);
      records, error := YieldLines(codec, lines);
      if refused.Some? {
        ghost var before := error;
        if error.None? {
          error := Some(TooLongLine(|lines| + 1));
        }
        RefusedOutcome(codec, Content(), lines, records, before, error);
      }
    }
  }

  /** The loop over the lines, up to the first that is no record. */
  method YieldLines(codec: Codec, lines: seq<Bytes>) returns (records: seq<Record>, error: Option<LedgerError>)
    ensures Yields(codec, lines, Reading(records, error))
  {
    records, error := [], None;
    var n := 0;
    while n < |lines| && error.None?
      invariant n <= |lines| && Yields(codec, lines[..n], Reading(records, error))
      decreases |lines| - n
    {
      NextLine(codec, lines, n, records);
      if !Blank(lines[n]) {
        match ReadLine(codec, lines[n], n + 1)
        case Ok(record) => records := records + [record];
        case Err(e) => error := Some(e);
      }
      n := n + 1;
    }
    EndsThere(codec, lines, n, Reading(records, error));
  }

  lemma NextLine(codec: Codec, lines: seq<Bytes>, n: nat, records: seq<Record>)
    requires n < |lines| && Yields(codec, lines[..n], Reading(records, None))
    ensures Yields(codec, lines[..n + 1],
      if Blank(lines[n]) then Reading(records, None)
      else match ReadLine(codec, lines[n], n + 1)
        case Ok(record) => Reading(records + [record], None)
        case Err(e) => Reading(records, Some(e)))
  {
    TakeOneMore(lines, n);
  }

  lemma EndsThere(codec: Codec, lines: seq<Bytes>, n: nat, reading: Reading)
    requires n <= |lines| && Yields(codec, lines[..n], reading) && (n == |lines| || reading.error.Some?)
    ensures Yields(codec, lines, reading)
  {
    StopsThere(codec, lines, n);
  }

  lemma TornHere(before: Bytes, line: Bytes, n: nat)
    requires n < |line|
    ensures Torn(before, line, before + line[..n])
  {
  }

  lemma WrittenStep(before: Bytes, line: Bytes, at: nat, written: nat)
    requires at + written <= |line|
    ensures before + line[..at] + line[at..][..written] == before + line[..at + written]
    ensures line[at..][written..] == line[at + written..]
  {
  }

  lemma RefusedOutcome(codec: Codec, content: Bytes, lines: seq<Bytes>, records: seq<Record>,
                       before: Option<LedgerError>, error: Option<LedgerError>)
    requires |content| <= MAX_LEDGER_BYTES && lines <= Lines(content) && FirstTooLong(Lines(content), |lines|)
    requires Yields(codec, lines, Reading(records, before))
    requires error == if before.Some? then before else Some(TooLongLine(|lines| + 1))
    ensures ReadOutcome(codec, content, records, error)
  {
    assert Lines(content)[..|lines|] == lines;
    assert StoppedAt(codec, Lines(content), |lines|, records, error);
  }

  lemma NothingToRead(codec: Codec)
    ensures Readable([]) && ReadLines(codec, Lines([])) == Reading([], None)
  {
  }

  /** Lines after the first bad one are never looked at. */
  lemma {:induction false} StopsThere(codec: Codec, lines: seq<Bytes>, n: nat)
    requires n <= |lines| && (n == |lines| || ReadLines(codec, lines[..n]).error.Some?)
    ensures ReadLines(codec, lines) == ReadLines(codec, lines[..n])
    decreases |lines|
  {
    if n == |lines| {
      assert lines[..n] == lines;
    } else {
      assert lines[..|lines| - 1][..n] == lines[..n];
      StopsThere(codec, lines[..|lines| - 1], n);
    }
  }

  // ---------- the round trip ----------

  function Texts(codec: Codec, records: seq<Record>): seq<Bytes> {
    if records == [] then []
    else Texts(codec, records[..|records| - 1]) + [codec.encode(ToJson(records[|records| - 1]))]
  }

  lemma LineGrows(before: Bytes, texts: seq<Bytes>, text: Bytes)
    requires Segments(before) == texts + [[]] && NEWLINE !in text
    ensures Segments(before + text) == texts + [text]
    ensures Segments(before + text + [NEWLINE]) == texts + [text] + [[]]
  {
    PlainGrows(before, text);
    NewlineGrows(before + text);
    NothingBefore(text);
    var t := Segments(before + text);
    assert t == t[..|t| - 1] + [t[|t| - 1]];
  }

  lemma LogGrows(codec: Codec, head: seq<Record>, last: Record)
    requires Faithful(codec) && RejectionReason(codec, last) == None
    requires LogSplits(codec, head)
    ensures LogSplits(codec, head + [last])
  {
    var text := codec.encode(ToJson(last));
    DropLast(head, last);
    LineGrows(Log(codec, head), Texts(codec, head), text);
    Reassociate(Log(codec, head), text, [NEWLINE]);
  }

  ghost predicate LogSplits(codec: Codec, records: seq<Record>) {
    Segments(Log(codec, records)) == Texts(codec, records) + [[]]
  }

  lemma {:induction false} LogSegments(codec: Codec, records: seq<Record>)
    requires Faithful(codec) && Accepted(codec, records)
    ensures LogSplits(codec, records)
    decreases |records|
  {
    if records == [] {
      assert Log(codec, records) == [] && Texts(codec, records) == [];
    } else {
      var head, last := AcceptedLast(codec, records);
      LogSegments(codec, head);
      LogGrows(codec, head, last);
    }
  }

  lemma AcceptedLast(codec: Codec, records: seq<Record>) returns (head: seq<Record>, last: Record)
    requires Accepted(codec, records) && records != []
    ensures records == head + [last] && |head| < |records| && Accepted(codec, head) && RejectionReason(codec, last) == None
  {
    head, last := records[..|records| - 1], records[|records| - 1];
  }

  lemma {:induction false} TextsShort(codec: Codec, records: seq<Record>)
    requires Accepted(codec, records)
    ensures forall i | 0 <= i < |Texts(codec, records)| :: |Texts(codec, records)[i]| <= MAX_LEDGER_LINE_BYTES
  {
    if records != [] {
      var head, last := records[..|records| - 1], records[|records| - 1];
      TextsShort(codec, head);
      assert RejectionReason(codec, last) == None;
      assert |codec.encode(ToJson(last))| < |Encoded(codec, last)|;
    }
  }

  lemma LogLines(codec: Codec, records: seq<Record>)
    requires Faithful(codec) && Accepted(codec, records)
    ensures Segments(Log(codec, records)) == Texts(codec, records) + [[]]
    ensures forall i | 0 <= i < |Texts(codec, records)| :: |Texts(codec, records)[i]| <= MAX_LEDGER_LINE_BYTES
  {
    LogSegments(codec, records);
    TextsShort(codec, records);
  }

  lemma {:induction false} TextsReadBack(codec: Codec, records: seq<Record>)
    requires Faithful(codec) && Accepted(codec, records)
    ensures |Texts(codec, records)| == |records|
    ensures ReadLines(codec, Texts(codec, records)) == Reading(records, None)
  {
    if records != [] {
      var head, last := records[..|records| - 1], records[|records| - 1];
      assert records == head + [last];
      TextsReadBack(codec, head);
      assert RejectionReason(codec, last) == None;
      TextReadBack(codec, last, |records|);
      ReadsOneMore(codec, Texts(codec, head), codec.encode(ToJson(last)), head, last);
    }
  }

  lemma TextReadBack(codec: Codec, record: Record, lineNo: nat)
    requires Faithful(codec) && codec.countable(ToJson(record))
    ensures ReadLine(codec, codec.encode(ToJson(record)), lineNo) == Ok(record) && !Blank(codec.encode(ToJson(record)))
  {
    ReadsWhatWasWritten(record);
  }

  lemma ReadsOneMore(codec: Codec, lines: seq<Bytes>, line: Bytes, records: seq<Record>, record: Record)
    requires ReadLines(codec, lines) == Reading(records, None)
    requires !Blank(line) && ReadLine(codec, line, |lines| + 1) == Ok(record)
    ensures ReadLines(codec, lines + [line]) == Reading(records + [record], None)
  {
    DropLast(lines, line);
  }

  /** Any sequence of accepted records is read back as exactly that sequence, as
      long as the file stays within the bound that `append` does not check. Above
      it nothing at all is read. */
  lemma LedgerRoundTrip(codec: Codec, records: seq<Record>)
    requires Faithful(codec) && Accepted(codec, records)
    ensures Readable(Log(codec, records)) <==> |Log(codec, records)| <= MAX_LEDGER_BYTES
    ensures ReadLines(codec, Lines(Log(codec, records))) == Reading(records, None)
  {
    LogLines(codec, records);
    TextsReadBack(codec, records);
    assert (Texts(codec, records) + [[]])[..|Texts(codec, records)|] == Texts(codec, records);
  }

  lemma AppendExtendsLog(codec: Codec, records: seq<Record>, record: Record)
    requires Accepted(codec, records) && RejectionReason(codec, record) == None
    ensures Accepted(codec, records + [record])
    ensures Log(codec, records + [record]) == Log(codec, records) + Encoded(codec, record)
  {
    DropLast(records, record);
  }

  lemma {:induction false} LogAppends(codec: Codec, a: seq<Record>, b: seq<Record>)
    ensures Log(codec, a + b) == Log(codec, a) + Log(codec, b)
    decreases |b|
  {
    if b == [] {
      assert a + b == a;
      NothingAfter(Log(codec, a));
    } else {
      var head, last := b[..|b| - 1], b[|b| - 1];
      LogAppends(codec, a, head);
      assert (a + b)[..|a + b| - 1] == a + head;
      Reassociate(Log(codec, a), Log(codec, head), Encoded(codec, last));
    }
  }

  /** What the class reads back: a file to which accepted records were appended, by however
      many calls, yields exactly those records while it is within its bound, and above
      it nothing at all. */
  lemma WrittenIsRead(codec: Codec, earlier: seq<Record>, more: seq<Record>, content: Bytes,
                      records: seq<Record>, error: Option<LedgerError>)
    requires Faithful(codec) && Accepted(codec, earlier) && Accepted(codec, more)
    requires content == Log(codec, earlier) + Log(codec, more) && ReadOutcome(codec, content, records, error)
    ensures if |content| <= MAX_LEDGER_BYTES then records == earlier + more && error.None?
            else records == [] && error == Some(TooLarge)
  {
    LogAppends(codec, earlier, more);
    LedgerRoundTrip(codec, earlier + more);
  }

  /** The reads of one pass: each returns something until the file ends, and no more
      than it was asked for. */
  method Reads(content: Bytes) returns (chunks: seq<Bytes>)
    ensures Flatten(chunks) == content && forall i | 0 <= i < |chunks| :: chunks[i] != []
  {
    chunks := [];
    var at := 0;
    while at < |content|
      invariant at <= |content| && Flatten(chunks) == content[..at]
      invariant forall i | 0 <= i < |chunks| :: chunks[i] != []
    {
      var n: int :| 1 <= n <= READ_CHUNK && at + n <= |content| by {
        assert 1 <= READ_CHUNK && at + 1 <= |content|;
      }
      DropLast(chunks, content[at..at + n]);
      assert content[..at] + content[at..at + n] == content[..at + n];
      chunks := chunks + [content[at..at + n]];
      at := at + n;
    }
    assert content[..at] == content;
  }

  /** A run's records appended, and a later pass over the file. */
  method AppendThenRead(ledger: Ledger, codec: Codec, ghost earlier: seq<Record>, batch: seq<Record>)
    returns (failed: Option<AppendError>, records: seq<Record>, error: Option<LedgerError>)
    requires Faithful(codec) && Accepted(codec, earlier) && ledger.Content() == Log(codec, earlier)
    modifies ledger
    ensures failed.None? && |ledger.Content()| <= MAX_LEDGER_BYTES ==> records == earlier + batch && error.None?
    ensures failed.None? && |ledger.Content()| > MAX_LEDGER_BYTES ==> records == [] && error == Some(TooLarge)
  {
    var kept;
    kept, failed := ledger.AppendEach(codec, batch);
    var content := if ledger.file.Some? then ledger.file.value else [];
    var chunks := Reads(content);
    records, error := ledger.Records(codec, chunks);
    if failed.None? {
      assert batch[..kept] == batch;
      WrittenIsRead(codec, earlier, batch, content, records, error);
    }
  }

  // ---------- behind a torn line ----------

  /** A cut-off object does not parse, alone or with another object behind it; nor do two
      objects in one line. */
  ghost predicate Unambiguous(codec: Codec) {
    forall r: Record, n: nat {:trigger codec.encode(ToJson(r))[..n]} |
      codec.countable(ToJson(r)) && 0 < n <= |codec.encode(ToJson(r))| :: TornText(codec, r, n)
  }

  ghost predicate TornText(codec: Codec, r: Record, n: nat)
    requires n <= |codec.encode(ToJson(r))|
  {
    var part := codec.encode(ToJson(r))[..n];
    && !Blank(part)
    && (n < |codec.encode(ToJson(r))| ==> codec.decode(part) == None)
    && forall next: Record {:trigger codec.encode(ToJson(next))} | codec.countable(ToJson(next)) ::
         codec.decode(part + codec.encode(ToJson(next))) == None
  }

  /** Behind the lines of `earlier` the file has `line`. */
  ghost predicate LineAfter(codec: Codec, earlier: seq<Record>, content: Bytes, line: Bytes) {
    Texts(codec, earlier) + [line] <= Lines(content)
  }

  /** The earlier records were read, and the line behind them ended it. */
  ghost predicate StopsAfter(earlier: seq<Record>, records: seq<Record>, error: Option<LedgerError>) {
    records == earlier && (error == Some(Undecodable(|earlier| + 1)) || error == Some(TooLongLine(|earlier| + 1)))
  }

  lemma BadLineEnds(codec: Codec, head: seq<Bytes>, line: Bytes, records: seq<Record>)
    requires ReadLines(codec, head) == Reading(records, None) && !Blank(line) && codec.decode(line) == None
    ensures Yields(codec, head + [line], Reading(records, Some(Undecodable(|head| + 1))))
  {
    DropLast(head, line);
    assert ReadLine(codec, line, |head| + 1) == Err(Undecodable(|head| + 1));
  }

  lemma StillYields(codec: Codec, head: seq<Bytes>, lines: seq<Bytes>, reading: Reading)
    requires head <= lines && Yields(codec, head, reading) && reading.error.Some?
    ensures Yields(codec, lines, reading)
  {
    assert lines[..|head|] == head;
    StopsThere(codec, lines, |head|);
  }

  lemma BadLineReading(codec: Codec, head: seq<Bytes>, line: Bytes, lines: seq<Bytes>, records: seq<Record>)
    requires ReadLines(codec, head) == Reading(records, None) && !Blank(line) && codec.decode(line) == None
    requires head + [line] <= lines
    ensures Yields(codec, lines, Reading(records, Some(Undecodable(|head| + 1))))
  {
    BadLineEnds(codec, head, line, records);
    StillYields(codec, head + [line], lines, Reading(records, Some(Undecodable(|head| + 1))));
  }

  /** Stopped by a line that is too long, the bad one or one behind it. */
  lemma BadLineTooLong(codec: Codec, head: seq<Bytes>, line: Bytes, lines: seq<Bytes>, records: seq<Record>, n: nat)
    requires ReadLines(codec, head) == Reading(records, None) && !Blank(line) && codec.decode(line) == None
    requires head + [line] <= lines && FirstTooLong(lines, n)
    requires forall i | 0 <= i < |head| :: |head[i]| <= MAX_LEDGER_LINE_BYTES
    ensures n >= |head|
    ensures Yields(codec, lines[..n], Reading(records, if n == |head| then None else Some(Undecodable(|head| + 1))))
  {
    assert forall i | 0 <= i < |head| :: lines[i] == head[i];
    if n == |head| {
      assert lines[..n] == head;
    } else {
      BadLineReading(codec, head, line, lines[..n], records);
    }
  }

  lemma BadLineStops(codec: Codec, earlier: seq<Record>, content: Bytes, line: Bytes,
                     records: seq<Record>, error: Option<LedgerError>)
    requires Faithful(codec) && Accepted(codec, earlier) && LineAfter(codec, earlier, content, line)
    requires !Blank(line) && codec.decode(line) == None
    requires |content| <= MAX_LEDGER_BYTES && ReadOutcome(codec, content, records, error)
    ensures StopsAfter(earlier, records, error)
  {
    TextsReadBack(codec, earlier);
    LogLines(codec, earlier);
    BadLineOutcome(codec, Texts(codec, earlier), line, content, earlier, records, error);
  }

  lemma BadLineOutcome(codec: Codec, head: seq<Bytes>, line: Bytes, content: Bytes, earlier: seq<Record>,
                       records: seq<Record>, error: Option<LedgerError>)
    requires ReadLines(codec, head) == Reading(earlier, None) && |head| == |earlier|
    requires forall i | 0 <= i < |head| :: |head[i]| <= MAX_LEDGER_LINE_BYTES
    requires !Blank(line) && codec.decode(line) == None && head + [line] <= Lines(content)
    requires |content| <= MAX_LEDGER_BYTES && ReadOutcome(codec, content, records, error)
    ensures StopsAfter(earlier, records, error)
  {
    var lines := Lines(content);
    if Readable(content) {
      BadLineReading(codec, head, line, lines, earlier);
    } else {
      var n: nat :| FirstTooLong(lines, n) && StoppedAt(codec, lines, n, records, error);
      BadLineTooLong(codec, head, line, lines, earlier, n);
    }
  }

  /** The unfinished last line, when there is more than nothing of it. */
  lemma PartBehindLog(codec: Codec, earlier: seq<Record>, part: Bytes)
    requires Faithful(codec) && Accepted(codec, earlier) && NEWLINE !in part && part != []
    ensures Segments(Log(codec, earlier) + part) == Texts(codec, earlier) + [part]
    ensures LineAfter(codec, earlier, Log(codec, earlier) + part, part)
  {
    LogLines(codec, earlier);
    LineGrows(Log(codec, earlier), Texts(codec, earlier), part);
  }

  /** A line that is finished stays where it is, whatever comes after it. */
  lemma LineStays(codec: Codec, earlier: seq<Record>, line: Bytes, rest: Bytes)
    requires Faithful(codec) && Accepted(codec, earlier) && NEWLINE !in line && line != []
    ensures LineAfter(codec, earlier, Log(codec, earlier) + line + [NEWLINE] + rest, line)
  {
    LogLines(codec, earlier);
    LineGrows(Log(codec, earlier), Texts(codec, earlier), line);
    FinishedStay(Log(codec, earlier) + line + [NEWLINE], Texts(codec, earlier) + [line], rest);
  }

  lemma FinishedStay(before: Bytes, lines: seq<Bytes>, rest: Bytes)
    requires Segments(before) == lines + [[]]
    ensures lines <= Lines(before + rest)
  {
    SegmentsGrow(before, rest);
    assert Segments(before)[..|lines|] == lines;
  }

  lemma TornLineRead(codec: Codec, earlier: seq<Record>, r: Record, n: nat,
                     records: seq<Record>, error: Option<LedgerError>)
    requires Faithful(codec) && Unambiguous(codec) && Accepted(codec, earlier) && RejectionReason(codec, r) == None
    requires 0 < n < |codec.encode(ToJson(r))|
    requires var content := Log(codec, earlier) + codec.encode(ToJson(r))[..n];
      |content| <= MAX_LEDGER_BYTES && ReadOutcome(codec, content, records, error)
    ensures StopsAfter(earlier, records, error)
  {
    var part := codec.encode(ToJson(r))[..n];
    assert TornText(codec, r, n);
    PartBehindLog(codec, earlier, part);
    BadLineStops(codec, earlier, Log(codec, earlier) + part, part, records, error);
  }

  lemma UnfinishedRead(codec: Codec, earlier: seq<Record>, r: Record, records: seq<Record>, error: Option<LedgerError>)
    requires Faithful(codec) && Accepted(codec, earlier) && RejectionReason(codec, r) == None
    requires var content := Log(codec, earlier) + codec.encode(ToJson(r));
      |content| <= MAX_LEDGER_BYTES && ReadOutcome(codec, content, records, error)
    ensures records == earlier + [r] && error.None?
  {
    var text := codec.encode(ToJson(r));
    TextReadBack(codec, r, |earlier| + 1);
    PartBehindLog(codec, earlier, text);
    LogLines(codec, earlier);
    TextsReadBack(codec, earlier);
    ReadsOneMore(codec, Texts(codec, earlier), text, earlier, r);
    AllRead(codec, Texts(codec, earlier) + [text], Log(codec, earlier) + text, earlier + [r], records, error);
  }

  lemma AllRead(codec: Codec, lines: seq<Bytes>, content: Bytes, all: seq<Record>,
                records: seq<Record>, error: Option<LedgerError>)
    requires Segments(content) == lines && lines[|lines| - 1] != [] && Yields(codec, lines, Reading(all, None))
    requires forall i | 0 <= i < |lines| :: |lines[i]| <= MAX_LEDGER_LINE_BYTES
    requires |content| <= MAX_LEDGER_BYTES && ReadOutcome(codec, content, records, error)
    ensures records == all && error.None?
  {
    assert Lines(content) == lines && Readable(content);
    OneReading(codec, lines, Reading(records, error), Reading(all, None));
  }

  lemma OneReading(codec: Codec, lines: seq<Bytes>, a: Reading, b: Reading)
    requires Yields(codec, lines, a) && Yields(codec, lines, b)
    ensures a == b
  {
  }

  lemma TornLineSpoilsNext(codec: Codec, earlier: seq<Record>, r: Record, n: nat, next: Record, rest: Bytes,
                           records: seq<Record>, error: Option<LedgerError>)
    requires Faithful(codec) && Unambiguous(codec) && Accepted(codec, earlier)
    requires RejectionReason(codec, r) == None && RejectionReason(codec, next) == None
    requires 0 < n <= |codec.encode(ToJson(r))|
    requires var content := Log(codec, earlier) + codec.encode(ToJson(r))[..n] + Encoded(codec, next) + rest;
      |content| <= MAX_LEDGER_BYTES && ReadOutcome(codec, content, records, error)
    ensures StopsAfter(earlier, records, error)
  {
    var part, text := codec.encode(ToJson(r))[..n], codec.encode(ToJson(next));
    TornLineIsBad(codec, r, n, next, part + text);
    LineStays(codec, earlier, part + text, rest);
    SameBytes(Log(codec, earlier), part, text, rest);
    BadLineStops(codec, earlier, Log(codec, earlier) + (part + text) + [NEWLINE] + rest, part + text, records, error);
  }

  lemma TornLineIsBad(codec: Codec, r: Record, n: nat, next: Record, line: Bytes)
    requires Faithful(codec) && Unambiguous(codec) && codec.countable(ToJson(r)) && codec.countable(ToJson(next))
    requires 0 < n <= |codec.encode(ToJson(r))| && line == codec.encode(ToJson(r))[..n] + codec.encode(ToJson(next))
    ensures !Blank(line) && codec.decode(line) == None && NEWLINE !in line && line != []
  {
    var part := codec.encode(ToJson(r))[..n];
    assert TornText(codec, r, n);
    assert forall i | 0 <= i < n :: line[i] == part[i];
  }

  lemma SameBytes(log: Bytes, part: Bytes, text: Bytes, rest: Bytes)
    ensures log + (part + text) + [NEWLINE] + rest == log + part + (text + [NEWLINE]) + rest
  {
  }

  lemma {:induction false} FirstOfLog(codec: Codec, more: seq<Record>)
    requires more != []
    ensures Log(codec, more) == Encoded(codec, more[0]) + Log(codec, more[1..])
  {
    assert more == [more[0]] + more[1..];
    LogAppends(codec, [more[0]], more[1..]);
    assert [more[0]][..0] == [];
    NothingBefore(Encoded(codec, more[0]));
  }

  /** What a torn append costs. Nothing, if no byte was written. If the whole text was and
      only its newline is missing, the record is read, as long as nothing follows. Else
      the earlier records are read, and nothing of what is appended later. */
  lemma BehindTornLine(codec: Codec, earlier: seq<Record>, r: Record, torn: Bytes, more: seq<Record>,
                       records: seq<Record>, error: Option<LedgerError>)
    requires Faithful(codec) && Unambiguous(codec)
    requires Accepted(codec, earlier) && RejectionReason(codec, r) == None && Accepted(codec, more)
    requires Torn(Log(codec, earlier), Encoded(codec, r), torn)
    requires |torn + Log(codec, more)| <= MAX_LEDGER_BYTES && ReadOutcome(codec, torn + Log(codec, more), records, error)
    ensures
      if torn == Log(codec, earlier) then records == earlier + more && error.None?
      else if torn == Log(codec, earlier) + codec.encode(ToJson(r)) && more == [] then
        records == earlier + [r] && error.None?
      else
        StopsAfter(earlier, records, error)
  {
    var n := TornAt(codec, earlier, r, torn);
    if n == 0 {
      WrittenIsRead(codec, earlier, more, torn + Log(codec, more), records, error);
    } else if more != [] {
      FirstOfLog(codec, more);
      Reassociate(torn, Encoded(codec, more[0]), Log(codec, more[1..]));
      TornLineSpoilsNext(codec, earlier, r, n, more[0], Log(codec, more[1..]), records, error);
    } else {
      NothingAfter(torn);
      if n < |codec.encode(ToJson(r))| {
        TornLineRead(codec, earlier, r, n, records, error);
      } else {
        UnfinishedRead(codec, earlier, r, records, error);
      }
    }
  }

  lemma TornAt(codec: Codec, earlier: seq<Record>, r: Record, torn: Bytes) returns (n: nat)
    requires Torn(Log(codec, earlier), Encoded(codec, r), torn)
    ensures n <= |codec.encode(ToJson(r))| && torn == Log(codec, earlier) + codec.encode(ToJson(r))[..n]
    ensures n == 0 <==> torn == Log(codec, earlier)
    ensures n == |codec.encode(ToJson(r))| <==> torn == Log(codec, earlier) + codec.encode(ToJson(r))
  {
    n :| n < |Encoded(codec, r)| && torn == Log(codec, earlier) + Encoded(codec, r)[..n];
    assert Encoded(codec, r)[..n] == codec.encode(ToJson(r))[..n];
  }

  lemma {:induction false} RepeatedRecord(codec: Codec, record: Record, n: nat)
    requires RejectionReason(codec, record) == None
    ensures var records := seq(n, _ => record); Accepted(codec, records) && |Log(codec, records)| >= n
    decreases n
  {
    if n > 0 {
      RepeatedRecord(codec, record, n - 1);
      assert seq(n, _ => record)[..n - 1] == seq(n - 1, _ => record);
    }
  }

  /** The bound really is out of `append`'s hands: repeat any record it accepts often
      enough, and it has accepted every one of them and nothing can be read. */
  lemma AppendOutgrowsReader(codec: Codec, record: Record)
    requires RejectionReason(codec, record) == None
    ensures exists records: seq<Record> :: Accepted(codec, records) && |Log(codec, records)| > MAX_LEDGER_BYTES
  {
    RepeatedRecord(codec, record, MAX_LEDGER_BYTES + 1);
  }
}
