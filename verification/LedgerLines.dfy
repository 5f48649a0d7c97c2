/** `_bounded_lines`: reading a file chunk by chunk is splitting it at newlines,
    however the chunks fall. */
module LedgerLines {
  import opened Wrappers
  import opened Numbers
  import opened Sequences

  newtype byte = x: int | 0 <= x < 256

  type Bytes = seq<byte>

  const NEWLINE: byte := 10
  const MAX_LEDGER_BYTES := 128 * 1024 * 1024
  const MAX_LEDGER_LINE_BYTES := 8 * 1024 * 1024

  datatype ReadError = FileTooLarge | LineTooLong(lineNo: nat)

  // ---------- the specification ----------

  /** The newline split, the unfinished last line included. */
  function Segments(data: Bytes): (s: seq<Bytes>)
    ensures s != []
  {
    if data == [] then [[]]
    else
      var before, b := Segments(data[..|data| - 1]), data[|data| - 1];
      if b == NEWLINE then before + [[]]
      else before[..|before| - 1] + [before[|before| - 1] + [b]]
  }

  function Joined(lines: seq<Bytes>): Bytes
    requires lines != []
  {
    if |lines| == 1 then lines[0] else Joined(lines[..|lines| - 1]) + [NEWLINE] + lines[|lines| - 1]
  }

  /** The split cuts at every newline and nowhere else. */
  lemma {:induction false} SegmentsMeaning(data: Bytes)
    ensures Joined(Segments(data)) == data
    ensures forall i | 0 <= i < |Segments(data)| :: NEWLINE !in Segments(data)[i]
  {
    if data != [] {
      SegmentsMeaning(data[..|data| - 1]);
      var before, all := Segments(data[..|data| - 1]), Segments(data);
      assert data == data[..|data| - 1] + [data[|data| - 1]];
      if data[|data| - 1] == NEWLINE {
        assert all[..|all| - 1] == before;
        assert Joined(all) == Joined(before) + [NEWLINE] + [];
      } else if |before| > 1 {
        assert all[..|all| - 1] == before[..|before| - 1];
      }
    }
  }

  /** The lines of a file: an empty last segment is no line. */
  function Lines(data: Bytes): seq<Bytes> {
    var segments := Segments(data);
    if segments[|segments| - 1] == [] then segments[..|segments| - 1] else segments
  }

  predicate Readable(data: Bytes) {
    |data| <= MAX_LEDGER_BYTES && forall i | 0 <= i < |Lines(data)| :: |Lines(data)[i]| <= MAX_LEDGER_LINE_BYTES
  }

  function Flatten(chunks: seq<Bytes>): Bytes {
    if chunks == [] then [] else Flatten(chunks[..|chunks| - 1]) + chunks[|chunks| - 1]
  }

  // ---------- growing a split ----------

  lemma {:induction false} PlainGrows(data: Bytes, more: Bytes)
    requires NEWLINE !in more
    ensures var s, t := Segments(data), Segments(data + more);
      |t| == |s| && t[..|t| - 1] == s[..|s| - 1] && t[|t| - 1] == s[|s| - 1] + more
    decreases |more|
  {
    if more == [] {
      assert data + more == data;
    } else {
      assert (data + more)[..|data + more| - 1] == data + more[..|more| - 1];
      assert more == more[..|more| - 1] + [more[|more| - 1]];
      PlainGrows(data, more[..|more| - 1]);
    }
  }

  lemma NewlineGrows(data: Bytes)
    ensures Segments(data + [NEWLINE]) == Segments(data) + [[]]
  {
    assert (data + [NEWLINE])[..|data|] == data;
  }

  /** Finished lines stay as they are; the unfinished one is only ever extended. */
  lemma {:induction false} SegmentsGrow(data: Bytes, more: Bytes)
    ensures var s, t := Segments(data), Segments(data + more);
      |s| <= |t| && s[..|s| - 1] == t[..|s| - 1] && s[|s| - 1] <= t[|s| - 1]
    decreases |more|
  {
    if more == [] {
      assert data + more == data;
    } else {
      assert (data + more)[..|data + more| - 1] == data + more[..|more| - 1];
      SegmentsGrow(data, more[..|more| - 1]);
    }
  }

  lemma TooLongForGood(data: Bytes, more: Bytes)
    requires var s := Segments(data); |s[|s| - 1]| > MAX_LEDGER_LINE_BYTES
    ensures var s, lines := Segments(data), Lines(data + more);
      |s| <= |lines| && |lines[|s| - 1]| > MAX_LEDGER_LINE_BYTES && s[..|s| - 1] == lines[..|s| - 1]
  {
    SegmentsGrow(data, more);
  }

  lemma {:induction false} FlattenPrefix(chunks: seq<Bytes>, n: nat)
    requires n <= |chunks|
    ensures Flatten(chunks[..n]) <= Flatten(chunks)
    decreases |chunks|
  {
    if n == |chunks| {
      assert chunks[..n] == chunks;
    } else {
      assert chunks[..|chunks| - 1][..n] == chunks[..n];
      FlattenPrefix(chunks[..|chunks| - 1], n);
    }
  }

  // ---------- the reader ----------

  /** `chunk.find(b"\n", start)`, with the length for "not found". */
  method FindNewline(chunk: Bytes, start: nat) returns (at: nat)
    requires start <= |chunk|
    ensures start <= at <= |chunk| && NEWLINE !in chunk[start..at]
    ensures at < |chunk| ==> chunk[at] == NEWLINE
  {
    at := start;
    while at < |chunk| && chunk[at] != NEWLINE
      invariant start <= at <= |chunk| && NEWLINE !in chunk[start..at]
    {
      assert chunk[start..at + 1] == chunk[start..at] + [chunk[at]];
      at := at + 1;
    }
  }

  /** `lines` and `pending` are the split of what has been consumed. */
  ghost predicate Reading(consumed: Bytes, lines: seq<Bytes>, pending: Bytes) {
    && Segments(consumed) == lines + [pending]
    && |pending| <= MAX_LEDGER_LINE_BYTES
    && forall i | 0 <= i < |lines| :: |lines[i]| <= MAX_LEDGER_LINE_BYTES
  }

  /** What was read ends in the line that is too long, after `lines`. */
  ghost predicate EndsTooLong(consumed: Bytes, lines: seq<Bytes>) {
    var s := Segments(consumed);
    s[..|s| - 1] == lines && |s[|s| - 1]| > MAX_LEDGER_LINE_BYTES
  }

  lemma ReadPlain(consumed: Bytes, lines: seq<Bytes>, pending: Bytes, more: Bytes)
    requires Reading(consumed, lines, pending) && NEWLINE !in more
    ensures Segments(consumed + more) == lines + [pending + more]
    ensures |pending + more| <= MAX_LEDGER_LINE_BYTES ==> Reading(consumed + more, lines, pending + more)
    ensures |pending + more| > MAX_LEDGER_LINE_BYTES ==> EndsTooLong(consumed + more, lines)
  {
    PlainGrows(consumed, more);
    var t := Segments(consumed + more);
    assert t == t[..|t| - 1] + [t[|t| - 1]];
    assert t[..|t| - 1] == lines;
  }

  lemma ReadNewline(consumed: Bytes, lines: seq<Bytes>, pending: Bytes)
    requires Reading(consumed, lines, pending)
    ensures Reading(consumed + [NEWLINE], lines + [pending], [])
  {
    NewlineGrows(consumed);
  }

  /** Nothing held in memory is longer than `peak`. */
  ghost predicate Buffered(lines: seq<Bytes>, pending: Bytes, peak: nat) {
    |pending| <= peak <= MAX_LEDGER_LINE_BYTES && forall i | 0 <= i < |lines| :: |lines[i]| <= peak
  }

  lemma LineBuffered(lines: seq<Bytes>, pending: Bytes, peak: nat)
    requires Buffered(lines, pending, peak)
    ensures Buffered(lines + [pending], [], peak)
  {
  }

  lemma PendingBuffered(lines: seq<Bytes>, pending: Bytes, peak: nat, more: Bytes)
    requires Buffered(lines, pending, peak) && |more| <= MAX_LEDGER_LINE_BYTES
    ensures Buffered(lines, more, Max(peak, |more|))
  {
  }

  lemma SliceConsumed(before: Bytes, chunk: Bytes, start: nat, stop: nat)
    requires start <= stop <= |chunk|
    ensures before + chunk[..start] + chunk[start..stop] == before + chunk[..stop]
    ensures before + chunk[..stop] <= before + chunk
  {
  }

  lemma NewlineConsumed(before: Bytes, chunk: Bytes, newline: nat)
    requires newline < |chunk| && chunk[newline] == NEWLINE
    ensures before + chunk[..newline] + [NEWLINE] == before + chunk[..newline + 1]
  {
  }

  /** One chunk: the inner loop. On refusal, `consumed` is what was read up to the
      line that is too long. `peak` follows every growth of the buffer. */
  method ReadChunk(chunk: Bytes, lines: seq<Bytes>, pending: Bytes, peak: nat, ghost before: Bytes)
    returns (error: bool, lines': seq<Bytes>, pending': Bytes, peak': nat, ghost consumed: Bytes)
    requires Reading(before, lines, pending) && Buffered(lines, pending, peak)
    ensures before <= consumed <= before + chunk
    ensures !error ==> consumed == before + chunk && Reading(consumed, lines', pending')
    ensures error ==> EndsTooLong(consumed, lines')
    ensures Buffered(lines', pending', peak')
  {
    error, lines', pending', peak', consumed := false, lines, pending, peak, before;
    var start := 0;
    while true
      invariant start <= |chunk| && consumed == before + chunk[..start] && !error
      invariant Reading(consumed, lines', pending')
      invariant Buffered(lines', pending', peak')
      decreases |chunk| - start
    {
      var newline := FindNewline(chunk, start);
      var segment := chunk[start..newline];
      ReadPlain(consumed, lines', pending', segment);
      SliceConsumed(before, chunk, start, newline);
      consumed := consumed + segment;
      if |pending'| + |segment| > MAX_LEDGER_LINE_BYTES {
        error := true;
        return;
      }
      PendingBuffered(lines', pending', peak', pending' + segment);
      pending' := pending' + segment;
      peak' := Max(peak', |pending'|);
      if newline == |chunk| {
        break;
      }
      ReadNewline(consumed, lines', pending');
      NewlineConsumed(before, chunk, newline);
      LineBuffered(lines', pending', peak');
      consumed := consumed + [NEWLINE];
      lines' := lines' + [pending'];
      pending' := [];
      start := newline + 1;
    }
  }

  /** `_bounded_lines`. Every read returns something until the file ends. What is
      yielded before a refusal is a beginning of the split; `peak` is the most
      that was ever buffered. */
  method BoundedLines(chunks: seq<Bytes>) returns (lines: seq<Bytes>, error: Option<ReadError>, peak: nat)
    requires forall i | 0 <= i < |chunks| :: chunks[i] != []
    ensures error.None? <==> Readable(Flatten(chunks))
    ensures error.None? ==> lines == Lines(Flatten(chunks))
    ensures error == Some(FileTooLarge) ==> |Flatten(chunks)| > MAX_LEDGER_BYTES
    ensures error.Some? && error.value.LineTooLong? ==>
      && error.value.lineNo == |lines| + 1 <= |Lines(Flatten(chunks))|
      && |Lines(Flatten(chunks))[|lines|]| > MAX_LEDGER_LINE_BYTES
    ensures lines <= Lines(Flatten(chunks))
    ensures peak <= MAX_LEDGER_LINE_BYTES && forall i | 0 <= i < |lines| :: |lines[i]| <= peak
  {
    lines, error, peak := [], None, 0;
    var pending: Bytes, total := [], 0;
    ghost var data, consumed: Bytes := Flatten(chunks), [];
    for n := 0 to |chunks|
      invariant consumed == Flatten(chunks[..n]) && total == |consumed| <= MAX_LEDGER_BYTES
      invariant Reading(consumed, lines, pending)
      invariant error.None? && Buffered(lines, pending, peak)
    {
      TakeOneMore(chunks, n);
      FlattenPrefix(chunks, n + 1);
      FlattenPrefix(chunks, n);
      total := total + |chunks[n]|;
      if total > MAX_LEDGER_BYTES {
        StillPrefix(consumed, lines, pending, data);
        error := Some(FileTooLarge);
        return;
      }
      var tooLong;
      tooLong, lines, pending, peak, consumed := ReadChunk(chunks[n], lines, pending, peak, consumed);
      if tooLong {
        RefusedLine(consumed, lines, data);
        error := Some(LineTooLong(|lines| + 1));
        return;
      }
    }
    assert chunks[..|chunks|] == chunks;
    if pending != [] {
      lines := lines + [pending];
    } else {
      assert (lines + [pending])[..|lines|] == lines;
    }
  }

  lemma StillPrefix(consumed: Bytes, lines: seq<Bytes>, pending: Bytes, data: Bytes)
    requires Reading(consumed, lines, pending) && consumed <= data
    ensures lines <= Lines(data)
  {
    var more := data[|consumed|..];
    assert consumed + more == data;
    SegmentsGrow(consumed, more);
    var s, t := Segments(consumed), Segments(data);
    assert s[..|lines|] == lines;
  }

  lemma RefusedLine(consumed: Bytes, lines: seq<Bytes>, data: Bytes)
    requires consumed <= data
    requires EndsTooLong(consumed, lines)
    ensures lines <= Lines(data) && |lines| < |Lines(data)| && |Lines(data)[|lines|]| > MAX_LEDGER_LINE_BYTES
  {
    var more := data[|consumed|..];
    assert consumed + more == data;
    TooLongForGood(consumed, more);
    assert Segments(consumed)[..|lines|] == lines;
  }
}
