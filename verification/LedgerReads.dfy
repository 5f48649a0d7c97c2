/** What a pass over the ledger yields, line by line. */
module LedgerReads {
  import opened LedgerLines
  import opened LedgerRecords
  import opened LedgerFile
  import opened Records
  import opened Sequences
  import opened Wrappers

  // ---------- one line ----------

  /** The line is this record, as it is written, within the node bounds. */
  ghost predicate GoodLine(codec: Codec, line: Bytes, record: Record) {
    codec.decode(line) == Some(ToJson(record)) && codec.countable(ToJson(record))
  }

  /** What is wrong with the line, by its number. */
  ghost predicate BadLine(codec: Codec, line: Bytes, lineNo: nat, error: LedgerError) {
    var payload := codec.decode(line);
    match error
    case Undecodable(n) => n == lineNo && payload.None?
    case BoundsExceeded(n) => n == lineNo && payload.Some? && !codec.countable(payload.value)
    case Malformed(n, _) =>
      && n == lineNo && payload.Some? && codec.countable(payload.value)
      && forall record :: payload.value != ToJson(record)
    case _ => false
  }

  lemma ReadLineExactly(codec: Codec, line: Bytes, lineNo: nat)
    ensures match ReadLine(codec, line, lineNo)
      case Ok(record) => GoodLine(codec, line, record)
      case Err(error) => BadLine(codec, line, lineNo, error) && forall record :: !GoodLine(codec, line, record)
  {
    var payload := codec.decode(line);
    if payload.Some? && codec.countable(payload.value) {
      match RecordFromDict(payload.value) {
        case Ok(record) => AcceptedIsWritten(payload.value, record);
        case Err(_) =>
          forall record: Record
            ensures payload.value != ToJson(record)
          {
            ReadsWhatWasWritten(record);
          }
      }
    }
  }

  // ---------- all lines ----------

  /** The numbers of the lines that are not blank, in order. */
  ghost predicate Picks(lines: seq<Bytes>, ns: seq<nat>) {
    && (forall k, l | 0 <= k < l < |ns| :: ns[k] < ns[l])
    && forall n: nat :: n in ns <==> n < |lines| && !Blank(lines[n])
  }

  /** `records` are the lines that are not blank, one record each, in order. */
  ghost predicate OnePerLine(codec: Codec, lines: seq<Bytes>, ns: seq<nat>, records: seq<Record>) {
    && Picks(lines, ns) && |ns| == |records|
    && forall k | 0 <= k < |ns| :: ns[k] < |lines| && GoodLine(codec, lines[ns[k]], records[k])
  }

  ghost predicate AllGood(codec: Codec, lines: seq<Bytes>, records: seq<Record>) {
    exists ns: seq<nat> :: OnePerLine(codec, lines, ns, records)
  }

  /** The lines before `n` are good, the line at `n` is none and not blank. */
  ghost predicate StopsAt(codec: Codec, lines: seq<Bytes>, n: nat, records: seq<Record>, error: LedgerError) {
    && n < |lines| && AllGood(codec, lines[..n], records)
    && !Blank(lines[n]) && BadLine(codec, lines[n], n + 1, error)
  }

  /** A pass ends without an error exactly if every line that is not blank is a record, and
      has yielded them; else at the first that is none, with its number and what is wrong. */
  ghost predicate ReadExactly(codec: Codec, lines: seq<Bytes>, reading: Reading) {
    match reading.error
    case None => AllGood(codec, lines, reading.records)
    case Some(error) => exists n: nat :: StopsAt(codec, lines, n, reading.records, error)
  }

  lemma PicksMore(lines: seq<Bytes>, ns: seq<nat>, line: Bytes)
    requires Picks(lines, ns)
    ensures Picks(lines + [line], if Blank(line) then ns else ns + [|lines|])
  {
    var all, more := lines + [line], if Blank(line) then ns else ns + [|lines|];
    forall n: nat
      ensures n in more <==> n < |all| && !Blank(all[n])
    {
      assert n < |lines| ==> all[n] == lines[n];
    }
    forall k, l | 0 <= k < l < |more|
      ensures more[k] < more[l]
    {
      assert ns[k] in ns;
    }
  }

  lemma BlankMore(codec: Codec, lines: seq<Bytes>, line: Bytes, records: seq<Record>)
    requires AllGood(codec, lines, records) && Blank(line)
    ensures AllGood(codec, lines + [line], records)
  {
    var ns: seq<nat> :| OnePerLine(codec, lines, ns, records);
    PicksMore(lines, ns, line);
    forall k | 0 <= k < |ns|
      ensures GoodLine(codec, (lines + [line])[ns[k]], records[k])
    {
      assert ns[k] in ns;
    }
    assert OnePerLine(codec, lines + [line], ns, records);
  }

  lemma GoodMore(codec: Codec, lines: seq<Bytes>, line: Bytes, records: seq<Record>, record: Record)
    requires AllGood(codec, lines, records) && !Blank(line) && GoodLine(codec, line, record)
    ensures AllGood(codec, lines + [line], records + [record])
  {
    var ns: seq<nat> :| OnePerLine(codec, lines, ns, records);
    PicksMore(lines, ns, line);
    var more := ns + [|lines|];
    forall k | 0 <= k < |more|
      ensures GoodLine(codec, (lines + [line])[more[k]], (records + [record])[k])
    {
      assert k < |ns| ==> ns[k] in ns;
    }
    assert OnePerLine(codec, lines + [line], more, records + [record]);
  }

  lemma ReadMore(codec: Codec, lines: seq<Bytes>, line: Bytes)
    requires ReadExactly(codec, lines, ReadLines(codec, lines))
    ensures ReadExactly(codec, lines + [line], ReadLines(codec, lines + [line]))
  {
    var before, all := ReadLines(codec, lines), lines + [line];
    DropLast(lines, line);
    ReadLineExactly(codec, line, |lines| + 1);
    if before.error.Some? {
      var n: nat :| StopsAt(codec, lines, n, before.records, before.error.value);
      assert all[..n] == lines[..n];
      assert StopsAt(codec, all, n, before.records, before.error.value);
    } else if Blank(line) {
      BlankMore(codec, lines, line, before.records);
    } else {
      match ReadLine(codec, line, |lines| + 1)
      case Ok(record) => GoodMore(codec, lines, line, before.records, record);
      case Err(error) => assert StopsAt(codec, all, |lines|, before.records, error);
    }
  }

  lemma {:induction false} LinesReadExactly(codec: Codec, lines: seq<Bytes>)
    ensures ReadExactly(codec, lines, ReadLines(codec, lines))
  {
    if lines == [] {
      assert OnePerLine(codec, [], [], []);
    } else {
      LinesReadExactly(codec, lines[..|lines| - 1]);
      assert lines == lines[..|lines| - 1] + [lines[|lines| - 1]];
      ReadMore(codec, lines[..|lines| - 1], lines[|lines| - 1]);
    }
  }

  /** What a pass over any file yields: a record for every line that is not blank, up to the
      first line that is none or too long, and then that line's number and what is wrong; of
      a file beyond its bound nothing. */
  lemma FileReadExactly(codec: Codec, content: Bytes, records: seq<Record>, error: Option<LedgerError>)
    requires ReadOutcome(codec, content, records, error)
    ensures |content| > MAX_LEDGER_BYTES ==> records == [] && error == Some(TooLarge)
    ensures |content| <= MAX_LEDGER_BYTES ==>
      || ReadExactly(codec, Lines(content), Reading(records, error))
      || exists n: nat | FirstTooLong(Lines(content), n) ::
           error == Some(TooLongLine(n + 1)) && AllGood(codec, Lines(content)[..n], records)
  {
    var lines := Lines(content);
    LinesReadExactly(codec, lines);
    if |content| <= MAX_LEDGER_BYTES && !Readable(content) {
      var n: nat :| FirstTooLong(lines, n) && StoppedAt(codec, lines, n, records, error);
      LinesReadExactly(codec, lines[..n]);
      if error != Some(TooLongLine(n + 1)) {
        StoppedBefore(codec, lines, n, records, error);
      }
    }
  }

  lemma StoppedBefore(codec: Codec, lines: seq<Bytes>, n: nat, records: seq<Record>, error: Option<LedgerError>)
    requires n <= |lines| && error.Some? && ReadExactly(codec, lines[..n], Reading(records, error))
    ensures ReadExactly(codec, lines, Reading(records, error))
  {
    var k: nat :| StopsAt(codec, lines[..n], k, records, error.value);
    assert lines[..n][..k] == lines[..k];
    assert StopsAt(codec, lines, k, records, error.value);
  }

  // ---------- where writer and reader differ ----------

  /** The reader would take this record's line. */
  ghost predicate ReaderTakes(codec: Codec, record: Record) {
    codec.countable(ToJson(record)) && |codec.encode(ToJson(record))| <= MAX_LEDGER_LINE_BYTES
  }

  /** The writer accepts nothing the reader would not take, and refuses of what it would take
      exactly the lines of the greatest length, because it counts the newline. */
  lemma WriterIsStricterByOne(codec: Codec, record: Record)
    ensures RejectionReason(codec, record).None? ==> ReaderTakes(codec, record)
    ensures ReaderTakes(codec, record) && RejectionReason(codec, record).Some?
       <==> codec.countable(ToJson(record)) && |codec.encode(ToJson(record))| == MAX_LEDGER_LINE_BYTES
  {
    assert |Encoded(codec, record)| == |codec.encode(ToJson(record))| + 1;
  }
}
