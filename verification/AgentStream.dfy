/**
 The batched row stream between driver agent and client: what is written for one request, and what the client
 makes of it.
 */
module AgentStream {
  import opened Text

  const BATCH: nat := 64

  datatype Message<V> =
    | ColumnsChunk(id: int, fields: seq<string>)
    | RowsChunk(id: int, rows: seq<seq<V>>)
    | DoneChunk(id: int)
    | Failure(id: int)

  /** A row as a driver hands it over: by column name, or as values in column order. */
  datatype RowCall<V> = ByName(row: map<string, V>) | ByPosition(values: seq<V>)

  function Project<V>(columns: seq<string>, row: map<string, V>, absent: V): seq<V> {
    seq(|columns|, i requires 0 <= i < |columns| => if columns[i] in row then row[columns[i]] else absent)
  }

  /** The values a call adds to the stream; rows by name are refused while there are no columns. */
  function ValuesOf<V>(columns: seq<string>, call: RowCall<V>, absent: V): Option<seq<V>> {
    match call
    case ByName(row) => if columns == [] then None else Some(Project(columns, row, absent))
    case ByPosition(values) => Some(values)
  }

  /** The rows a driver gets into the stream with its first `n` calls. */
  function Consumed<V>(columns: seq<string>, calls: seq<RowCall<V>>, n: nat, absent: V): seq<seq<V>>
    requires n <= |calls|
  {
    if n == 0 then []
    else
      var before := Consumed(columns, calls, n - 1, absent);
      match ValuesOf(columns, calls[n - 1], absent)
      case None => before
      case Some(values) => before + [values]
  }

  function Header<V>(id: int, columns: Option<seq<string>>): seq<Message<V>> {
    if columns.Some? then [ColumnsChunk(id, columns.value)] else []
  }

  /** The full batches of a list of rows, as messages. */
  function FullChunks<V>(id: int, rows: seq<seq<V>>): (chunks: seq<Message<V>>)
    ensures |chunks| == |rows| / BATCH
  {
    seq(|rows| / BATCH, k requires 0 <= k < |rows| / BATCH => RowsChunk(id, rows[BATCH * k..BATCH * k + BATCH]))
  }

  function Rest<V>(rows: seq<V>): seq<V> {
    rows[BATCH * (|rows| / BATCH)..]
  }

  function Chunks<V>(id: int, rows: seq<seq<V>>): seq<Message<V>> {
    FullChunks(id, rows) + if Rest(rows) == [] then [] else [RowsChunk(id, Rest(rows))]
  }

  /** Everything written for one stream request that reached its driver. */
  function Transcript<V>(id: int, columns: Option<seq<string>>, rows: seq<seq<V>>, failed: bool): seq<Message<V>> {
    Header(id, columns) + Chunks(id, rows) + [if failed then Failure(id) else DoneChunk(id)]
  }

  lemma OneMoreRow<V>(id: int, rows: seq<seq<V>>, row: seq<V>)
    ensures if |Rest(rows)| + 1 < BATCH
            then FullChunks(id, rows + [row]) == FullChunks(id, rows) && Rest(rows + [row]) == Rest(rows) + [row]
            else FullChunks(id, rows + [row]) == FullChunks(id, rows) + [RowsChunk(id, Rest(rows) + [row])]
                 && Rest(rows + [row]) == []
  {
    var (all, n) := (rows + [row], |rows| / BATCH);
    forall k | 0 <= k < n ensures all[BATCH * k..BATCH * k + BATCH] == rows[BATCH * k..BATCH * k + BATCH] {
    }
    if |Rest(rows)| + 1 < BATCH {
      assert |all| / BATCH == n;
    } else {
      assert |all| == BATCH * (n + 1);
      assert all[BATCH * n..BATCH * n + BATCH] == Rest(rows) + [row];
    }
  }

  class AgentStreamResponseWriter<V> {
    const requestID: int
    const absent: V
    var columns: seq<string>
    var rows: seq<seq<V>>
    var rowCount: nat
    var output: seq<Message<V>>
    ghost var announced: Option<seq<string>>
    ghost var consumed: seq<seq<V>>

    /** Full batches have been written, and the rest of the rows waits in the buffer. */
    ghost predicate Valid()
      reads this
    {
      columns == (if announced.Some? then announced.value else [])
      && output == Header(requestID, announced) + FullChunks(requestID, consumed)
      && rows == Rest(consumed)
      && rowCount == |consumed|
    }

    constructor (requestID: int, absent: V)
      ensures Valid() && this.requestID == requestID && this.absent == absent
      ensures announced == None && consumed == []
    {
      this.requestID, this.absent := requestID, absent;
      columns, rows, rowCount, output := [], [], 0, [];
      announced, consumed := None, [];
    }

    method SetColumns(columns: seq<string>)
      requires Valid() && announced.None? && consumed == []
      modifies this
      ensures Valid() && announced == Some(columns) && consumed == []
    {
      this.columns := columns;
      output := output + [ColumnsChunk(requestID, columns)];
      announced := Some(columns);
    }

    method FlushRows()
      requires rows != []
      modifies this
      ensures output == old(output) + [RowsChunk(requestID, old(rows))] && rows == []
      ensures columns == old(columns) && rowCount == old(rowCount)
      ensures announced == old(announced) && consumed == old(consumed)
    {
      var batch := rows;
      rows := [];
      output := output + [RowsChunk(requestID, batch)];
    }

    method ConsumeRowValues(values: seq<V>)
      requires Valid()
      modifies this
      ensures Valid() && announced == old(announced) && consumed == old(consumed) + [values]
    {
      OneMoreRow(requestID, consumed, values);
      rows := rows + [values];
      rowCount := rowCount + 1;
      consumed := consumed + [values];
      if |rows| < BATCH {
        return;
      }
      FlushRows();
    }

    method ConsumeRow(row: map<string, V>) returns (ok: bool)
      requires Valid()
      modifies this
      ensures Valid() && announced == old(announced) && ok == (columns != [])
      ensures consumed == old(consumed) + if ok then [Project(columns, row, absent)] else []
    {
      if columns == [] {
        return false;
      }
      var values := [];
      for i := 0 to |columns|
        invariant values == Project(columns[..i], row, absent)
      {
        assert columns[..i + 1][..i] == columns[..i];
        values := values + [if columns[i] in row then row[columns[i]] else absent];
      }
      assert columns[..|columns|] == columns;
      ConsumeRowValues(values);
      ok := true;
    }

    /** Writes what is left in the buffer. */
    method Finish()
      requires Valid()
      modifies this
      ensures output == Header(requestID, announced) + Chunks(requestID, consumed)
      ensures announced == old(announced) && consumed == old(consumed) && rowCount == old(rowCount)
    {
      if rows != [] {
        FlushRows();
      }
    }
  }

  /**
   A driver's side of a stream: the columns, if it gets to announce them, then rows; in the end it may report an
   error.
   */
  datatype Stream<V> = Stream(columns: Option<seq<string>>, calls: seq<RowCall<V>>, failed: bool)

  function ColumnsOf<V>(s: Stream<V>): seq<string> {
    if s.columns.Some? then s.columns.value else []
  }

  method FeedRows<V>(writer: AgentStreamResponseWriter<V>, calls: seq<RowCall<V>>)
    requires writer.Valid() && writer.consumed == []
    modifies writer
    ensures writer.Valid() && writer.announced == old(writer.announced)
    ensures writer.consumed == Consumed(old(writer.columns), calls, |calls|, writer.absent)
  {
    for i := 0 to |calls|
      invariant writer.Valid() && writer.announced == old(writer.announced)
      invariant writer.consumed == Consumed(old(writer.columns), calls, i, writer.absent)
    {
      match calls[i]
      case ByName(row) => var ok := writer.ConsumeRow(row);
      case ByPosition(values) => writer.ConsumeRowValues(values);
    }
  }

  /**
   A stream request: it is refused without a connection or with an unknown session, else its driver is run to the
   end.
   */
  method HandleStreamRequest<V>(id: int, connected: bool, sessionKnown: bool, s: Stream<V>, absent: V)
    returns (output: seq<Message<V>>)
    ensures output == if connected && sessionKnown
                      then Transcript(id, s.columns, Consumed(ColumnsOf(s), s.calls, |s.calls|, absent), s.failed)
                      else [Failure(id)]
  {
    if !connected || !sessionKnown {
      return [Failure(id)];
    }
    var writer := new AgentStreamResponseWriter(id, absent);
    if s.columns.Some? {
      writer.SetColumns(s.columns.value);
    }
    FeedRows(writer, s.calls);
    writer.Finish();
    output := writer.output + [if s.failed then Failure(id) else DoneChunk(id)];
  }

  // What a transcript looks like.

  function RowsOf<V>(m: Message<V>): seq<seq<V>> {
    if m.RowsChunk? then m.rows else []
  }

  /** The rows in the messages from position `i` up to `j`. */
  function RowsBetween<V>(messages: seq<Message<V>>, i: nat, j: nat): seq<seq<V>>
    requires i <= j <= |messages|
    decreases j
  {
    if i == j then [] else RowsBetween(messages, i, j - 1) + RowsOf(messages[j - 1])
  }

  predicate IsTerminal<V>(m: Message<V>) {
    m.DoneChunk? || m.Failure?
  }

  lemma {:induction false} RowsJoin<V>(messages: seq<Message<V>>, i: nat, j: nat, k: nat)
    requires i <= j <= k <= |messages|
    ensures RowsBetween(messages, i, k) == RowsBetween(messages, i, j) + RowsBetween(messages, j, k)
    decreases k
  {
    if j < k {
      RowsJoin(messages, i, j, k - 1);
    }
  }

  lemma {:induction false} RowsInFront<V>(front: seq<Message<V>>, back: seq<Message<V>>, n: nat)
    requires n <= |front|
    ensures RowsBetween(front + back, 0, n) == RowsBetween(front, 0, n)
  {
    if n > 0 {
      RowsInFront(front, back, n - 1);
      assert (front + back)[n - 1] == front[n - 1];
    }
  }

  lemma {:induction false} RowsInBack<V>(front: seq<Message<V>>, back: seq<Message<V>>, n: nat)
    requires n <= |back|
    ensures RowsBetween(front + back, |front|, |front| + n) == RowsBetween(back, 0, n)
  {
    if n > 0 {
      RowsInBack(front, back, n - 1);
      assert (front + back)[|front| + n - 1] == back[n - 1];
    }
  }

  /** The rows in some messages, and then in some more. */
  lemma RowsInBoth<V>(front: seq<Message<V>>, back: seq<Message<V>>)
    ensures RowsBetween(front + back, 0, |front + back|)
         == RowsBetween(front, 0, |front|) + RowsBetween(back, 0, |back|)
  {
    RowsInFront(front, back, |front|);
    RowsInBack(front, back, |back|);
    RowsJoin(front + back, 0, |front|, |front| + |back|);
  }

  lemma RowsInOne<V>(m: Message<V>)
    ensures RowsBetween([m], 0, 1) == RowsOf(m)
  {
    assert RowsBetween([m], 0, 0) == [];
  }

  lemma {:induction false} RowsInFullChunks<V>(id: int, rows: seq<seq<V>>, n: nat)
    requires n <= |rows| / BATCH
    ensures RowsBetween(FullChunks(id, rows), 0, n) == rows[..BATCH * n]
  {
    if n > 0 {
      RowsInFullChunks(id, rows, n - 1);
      assert rows[..BATCH * n] == rows[..BATCH * (n - 1)] + rows[BATCH * (n - 1)..BATCH * n];
    }
  }

  lemma FullChunksAndRest<V>(rows: seq<V>)
    ensures BATCH * (|rows| / BATCH) <= |rows| && rows[..BATCH * (|rows| / BATCH)] + Rest(rows) == rows
  {
  }

  /** The chunks of a list of rows hold exactly the rows, in order. */
  lemma RowsInChunks<V>(id: int, rows: seq<seq<V>>)
    ensures RowsBetween(Chunks(id, rows), 0, |Chunks(id, rows)|) == rows
  {
    var full := FullChunks(id, rows);
    RowsInFullChunks(id, rows, |full|);
    FullChunksAndRest(rows);
    if Rest(rows) == [] {
      assert Chunks(id, rows) == full;
    } else {
      RowsInOne(RowsChunk(id, Rest(rows)));
      RowsInBoth(full, [RowsChunk(id, Rest(rows))]);
    }
  }

  lemma RowsInHeader<V>(id: int, columns: Option<seq<string>>)
    ensures var header := Header<V>(id, columns); RowsBetween(header, 0, |header|) == []
  {
    if columns.Some? {
      RowsInOne<V>(ColumnsChunk(id, columns.value));
    }
  }

  /** No row is lost, repeated or moved, whether the stream ends well or not. */
  lemma RowsInTranscript<V>(id: int, columns: Option<seq<string>>, rows: seq<seq<V>>, failed: bool)
    ensures var t := Transcript(id, columns, rows, failed); RowsBetween(t, 0, |t|) == rows
  {
    var (header, chunks) := (Header<V>(id, columns), Chunks(id, rows));
    var last: Message<V> := if failed then Failure(id) else DoneChunk(id);
    RowsInHeader<V>(id, columns);
    RowsInChunks(id, rows);
    RowsInOne(last);
    RowsInBoth(header, chunks);
    RowsInBoth(header + chunks, [last]);
  }

  /** No chunk is empty, and all but the last hold exactly a batch. */
  lemma ChunksAreBatches<V>(id: int, rows: seq<seq<V>>, k: nat)
    requires k < |Chunks(id, rows)|
    ensures var chunks := Chunks(id, rows);
            chunks[k].RowsChunk? && chunks[k].id == id && 0 < |chunks[k].rows| <= BATCH
            && (k < |chunks| - 1 ==> |chunks[k].rows| == BATCH)
  {
    var n := |rows| / BATCH;
    assert |Rest(rows)| == |rows| - BATCH * n < BATCH;
    if k < n {
      assert Chunks(id, rows)[k] == FullChunks(id, rows)[k];
    } else {
      assert k == n && Chunks(id, rows)[k] == RowsChunk(id, Rest(rows));
    }
  }

  /** What stands where in a transcript. */
  lemma TranscriptAt<V>(header: seq<Message<V>>, chunks: seq<Message<V>>, last: Message<V>, i: nat)
    requires i <= |header| + |chunks|
    ensures var t := header + chunks + [last];
            |t| == |header| + |chunks| + 1
            && t[i] == if i < |header| then header[i] else if i < |t| - 1 then chunks[i - |header|] else last
  {
  }

  /**
   The protocol: every message carries the request's id, columns come first if at all, the last message and
   no other is terminal, no chunk is empty, and all chunks but the last hold exactly a batch.
   */
  lemma TranscriptIsWellFormed<V>(id: int, columns: Option<seq<string>>, rows: seq<seq<V>>, failed: bool, i: nat)
    requires i < |Transcript(id, columns, rows, failed)|
    ensures var (t, h) := (Transcript(id, columns, rows, failed), |Header<V>(id, columns)|);
            t[i].id == id
            && (t[i].ColumnsChunk? <==> i == 0 && columns.Some?)
            && (IsTerminal(t[i]) <==> i == |t| - 1)
            && (i == |t| - 1 ==> t[i].Failure? == failed)
            && (h <= i < |t| - 1 ==> t[i].RowsChunk? && 0 < |t[i].rows| <= BATCH)
            && (h <= i < |t| - 2 ==> |t[i].rows| == BATCH)
  {
    var (header, chunks) := (Header<V>(id, columns), Chunks(id, rows));
    TranscriptAt(header, chunks, if failed then Failure(id) else DoneChunk(id), i);
    if |header| <= i < |header| + |chunks| {
      ChunksAreBatches(id, rows, i - |header|);
    }
  }
}
