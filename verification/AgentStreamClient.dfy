/** The client's end of a row stream, and the whole way of the rows from the driver to the client's consumer. */
module AgentStreamClient {
  import opened Text
  import opened AgentStream

  datatype Outcome = Completed | AgentFailed | ColumnsMissing | Refused | Unreadable | Broken

  /**
   What the client meets on its way: which lines and which batches it can decode, and what its consumer takes.
   Whether a row is taken may depend on all rows taken before it.
   */
  datatype Reader<!V> = Reader(
    parses: Message<V> -> bool,
    decodes: seq<seq<V>> -> bool,
    takesColumns: seq<string> -> bool,
    takesRow: (seq<string>, seq<seq<V>>, seq<V>) -> bool)

  /** What the client has handed to its consumer, how it ended, and how many messages it has taken from the pipe. */
  datatype Received<V> = Received(columns: seq<string>, rows: seq<seq<V>>, outcome: Outcome, read: nat)

  /** How many rows of a batch the consumer takes, from row `k` on, after the rows in `before`. */
  function Taken<V>(
      reader: Reader<V>, columns: seq<string>, before: seq<seq<V>>, batch: seq<seq<V>>, k: nat): (n: nat)
    requires k <= |batch|
    ensures k <= n <= |batch|
    decreases |batch| - k
  {
    if k < |batch| && reader.takesRow(columns, before + batch[..k], batch[k])
    then Taken(reader, columns, before, batch, k + 1)
    else k
  }

  datatype Progress<V> =
    | Going(columns: seq<string>, rows: seq<seq<V>>)
    | Ended(columns: seq<string>, rows: seq<seq<V>>, outcome: Outcome)

  /** What one message does. */
  function TakeMessage<V>(reader: Reader<V>, m: Message<V>, columns: seq<string>, rows: seq<seq<V>>): Progress<V> {
    if !reader.parses(m) then Ended(columns, rows, Unreadable)
    else
      match m
      case Failure(_) => Ended(columns, rows, AgentFailed)
      case DoneChunk(_) => Ended(columns, rows, Completed)
      case ColumnsChunk(_, fields) =>
        if reader.takesColumns(fields) then Going(fields, rows) else Ended(fields, rows, Refused)
      case RowsChunk(_, batch) =>
        if columns == [] then Ended(columns, rows, ColumnsMissing)
        else if !reader.decodes(batch) then Ended(columns, rows, Unreadable)
        else
          var n := Taken(reader, columns, rows, batch, 0);
          if n == |batch| then Going(columns, rows + batch) else Ended(columns, rows + batch[..n], Refused)
  }

  /** What happens from message `i` on, with some columns and rows already received. */
  function Receive<V>(
      reader: Reader<V>, messages: seq<Message<V>>, i: nat, columns: seq<string>, rows: seq<seq<V>>): (r: Received<V>)
    requires i <= |messages|
    ensures i <= r.read <= |messages| && (i < |messages| ==> i < r.read)
    decreases |messages| - i
  {
    if i == |messages| then Received(columns, rows, Broken, i)
    else
      match TakeMessage(reader, messages[i], columns, rows)
      case Going(columns', rows') => Receive(reader, messages, i + 1, columns', rows')
      case Ended(columns', rows', outcome) => Received(columns', rows', outcome, i + 1)
  }

  /** Hands the rows of a batch to the consumer, until it refuses one. */
  method HandOver<V>(reader: Reader<V>, columns: seq<string>, before: seq<seq<V>>, batch: seq<seq<V>>)
    returns (rows: seq<seq<V>>, ok: bool)
    ensures var n := Taken(reader, columns, before, batch, 0); rows == before + batch[..n] && ok == (n == |batch|)
  {
    rows := before;
    var k := 0;
    assert before + batch[..0] == before;
    while k < |batch|
      invariant 0 <= k <= |batch| && rows == before + batch[..k]
      invariant Taken(reader, columns, before, batch, 0) == Taken(reader, columns, before, batch, k)
    {
      if !reader.takesRow(columns, rows, batch[k]) {
        return rows, false;
      }
      assert before + batch[..k] + [batch[k]] == before + batch[..k + 1];
      rows := rows + [batch[k]];
      k := k + 1;
    }
    ok := true;
  }

  /** The reading loop of the client. */
  method CallStreamQuery<V>(reader: Reader<V>, messages: seq<Message<V>>) returns (received: Received<V>)
    ensures received == Receive(reader, messages, 0, [], [])
  {
    var columns: seq<string> := [];
    var rows: seq<seq<V>> := [];
    var i := 0;
    while i < |messages|
      invariant 0 <= i <= |messages|
      invariant Receive(reader, messages, 0, [], []) == Receive(reader, messages, i, columns, rows)
    {
      var m := messages[i];
      i := i + 1;
      if !reader.parses(m) {
        return Received(columns, rows, Unreadable, i);
      }
      match m {
        case Failure(_) => return Received(columns, rows, AgentFailed, i);
        case DoneChunk(_) => return Received(columns, rows, Completed, i);
        case ColumnsChunk(_, fields) =>
          columns := fields;
          if !reader.takesColumns(columns) {
            return Received(columns, rows, Refused, i);
          }
        case RowsChunk(_, batch) =>
          if columns == [] {
            return Received(columns, rows, ColumnsMissing, i);
          }
          if !reader.decodes(batch) {
            return Received(columns, rows, Unreadable, i);
          }
          var ok;
          assert rows + batch[..|batch|] == rows + batch;
          rows, ok := HandOver(reader, columns, rows, batch);
          if !ok {
            return Received(columns, rows, Refused, i);
          }
      }
    }
    received := Received(columns, rows, Broken, i);
  }

  // What is taken.

  /** The consumer takes every row, after the rows before it. */
  ghost predicate TakesAll<V>(reader: Reader<V>, columns: seq<string>, rows: seq<seq<V>>) {
    forall k :: 0 <= k < |rows| ==> reader.takesRow(columns, rows[..k], rows[k])
  }

  lemma {:induction false} TakenAll<V>(
      reader: Reader<V>, columns: seq<string>, before: seq<seq<V>>, batch: seq<seq<V>>, k: nat)
    requires k <= |batch|
    ensures Taken(reader, columns, before, batch, k) == |batch|
       <==> forall i :: k <= i < |batch| ==> reader.takesRow(columns, before + batch[..i], batch[i])
    decreases |batch| - k
  {
    if k < |batch| && reader.takesRow(columns, before + batch[..k], batch[k]) {
      TakenAll(reader, columns, before, batch, k + 1);
    }
  }

  lemma TakesAllJoin<V>(reader: Reader<V>, columns: seq<string>, before: seq<seq<V>>, batch: seq<seq<V>>)
    ensures TakesAll(reader, columns, before + batch)
       <==> TakesAll(reader, columns, before) && Taken(reader, columns, before, batch, 0) == |batch|
  {
    var all := before + batch;
    TakenAll(reader, columns, before, batch, 0);
    forall k | 0 <= k < |before| ensures all[..k] == before[..k] && all[k] == before[k] {
    }
    forall i | 0 <= i < |batch| ensures all[..|before| + i] == before + batch[..i] && all[|before| + i] == batch[i] {
    }
    if TakesAll(reader, columns, all) {
      forall i | 0 <= i < |batch| ensures reader.takesRow(columns, before + batch[..i], batch[i]) {
        assert reader.takesRow(columns, all[..|before| + i], all[|before| + i]);
      }
      forall k | 0 <= k < |before| ensures reader.takesRow(columns, before[..k], before[k]) {
        assert reader.takesRow(columns, all[..k], all[k]);
      }
    }
    if TakesAll(reader, columns, before) && Taken(reader, columns, before, batch, 0) == |batch| {
      forall k | 0 <= k < |all| ensures reader.takesRow(columns, all[..k], all[k]) {
        if k >= |before| {
          assert all[..k] == before + batch[..k - |before|];
        }
      }
    }
  }

  ghost predicate AllRows<V>(chunks: seq<Message<V>>) {
    forall k :: 0 <= k < |chunks| ==> chunks[k].RowsChunk?
  }

  /** Every chunk can be decoded. */
  ghost predicate CanRead<V>(reader: Reader<V>, chunks: seq<Message<V>>, n: nat)
    requires AllRows(chunks) && n <= |chunks|
  {
    forall k :: 0 <= k < n ==> reader.parses(chunks[k]) && reader.decodes(chunks[k].rows)
  }

  /** The first `n` chunks are read, and all their rows taken. */
  ghost predicate TakesChunks<V>(reader: Reader<V>, columns: seq<string>, chunks: seq<Message<V>>, n: nat)
    requires AllRows(chunks) && n <= |chunks|
  {
    CanRead(reader, chunks, n) && TakesAll(reader, columns, RowsBetween(chunks, 0, n))
  }

  /** The messages after a header: chunks, and then others. */
  function Behind<V>(header: seq<Message<V>>, chunks: seq<Message<V>>, later: seq<Message<V>>): seq<Message<V>> {
    header + (chunks + later)
  }

  lemma ChunkAt<V>(header: seq<Message<V>>, chunks: seq<Message<V>>, later: seq<Message<V>>, n: nat)
    requires n < |chunks|
    ensures |header| + n < |Behind(header, chunks, later)| && Behind(header, chunks, later)[|header| + n] == chunks[n]
  {
  }

  lemma TakeChunk<V>(reader: Reader<V>, columns: seq<string>, chunks: seq<Message<V>>, n: nat)
    requires AllRows(chunks) && n < |chunks| && columns != [] && TakesChunks(reader, columns, chunks, n)
    ensures var rows := RowsBetween(chunks, 0, n);
            var progress := TakeMessage(reader, chunks[n], columns, rows);
            if TakesChunks(reader, columns, chunks, n + 1) then
              progress == Going(columns, RowsBetween(chunks, 0, n + 1))
            else progress.Ended? && (progress.outcome.Refused? || progress.outcome.Unreadable?)
                 && progress.columns == columns && progress.rows <= RowsBetween(chunks, 0, n + 1)
  {
    TakesAllJoin(reader, columns, RowsBetween(chunks, 0, n), chunks[n].rows);
  }

  /** As long as everything is taken, the chunks are handed on one after the other. */
  lemma {:induction false} ReceiveChunks<V>(
      reader: Reader<V>, header: seq<Message<V>>, columns: seq<string>, chunks: seq<Message<V>>,
      later: seq<Message<V>>, n: nat)
    requires AllRows(chunks) && n <= |chunks| && columns != [] && TakesChunks(reader, columns, chunks, n)
    ensures var all := Behind(header, chunks, later);
            Receive(reader, all, |header|, columns, [])
            == Receive(reader, all, |header| + n, columns, RowsBetween(chunks, 0, n))
  {
    if n > 0 {
      FewerTaken(reader, columns, chunks, n);
      ReceiveChunks(reader, header, columns, chunks, later, n - 1);
      TakeChunk(reader, columns, chunks, n - 1);
      ChunkAt(header, chunks, later, n - 1);
    }
  }

  lemma FewerTaken<V>(reader: Reader<V>, columns: seq<string>, chunks: seq<Message<V>>, n: nat)
    requires AllRows(chunks) && 0 < n <= |chunks| && TakesChunks(reader, columns, chunks, n)
    ensures TakesChunks(reader, columns, chunks, n - 1)
  {
    TakesAllJoin(reader, columns, RowsBetween(chunks, 0, n - 1), chunks[n - 1].rows);
  }

  /** How many chunks are read and taken whole, from the first `n` downwards. */
  lemma {:induction false} FirstStop<V>(reader: Reader<V>, columns: seq<string>, chunks: seq<Message<V>>, n: nat)
    returns (stop: nat)
    requires AllRows(chunks) && n <= |chunks| && !TakesChunks(reader, columns, chunks, n)
    ensures stop < n && TakesChunks(reader, columns, chunks, stop) && !TakesChunks(reader, columns, chunks, stop + 1)
  {
    assert TakesChunks(reader, columns, chunks, 0);
    if TakesChunks(reader, columns, chunks, n - 1) {
      stop := n - 1;
    } else {
      stop := FirstStop(reader, columns, chunks, n - 1);
    }
  }

  lemma {:induction false} RowsGrow<V>(chunks: seq<Message<V>>, n: nat, m: nat)
    requires n <= m <= |chunks|
    ensures RowsBetween(chunks, 0, n) <= RowsBetween(chunks, 0, m)
  {
    if n < m {
      RowsGrow(chunks, n, m - 1);
    }
  }

  /** What the client has when it is through with the chunks, or gives up at one of them. */
  ghost predicate IsStoppedAt<V>(received: Received<V>, rows: seq<seq<V>>, from: nat, to: nat) {
    from < received.read <= to && received.rows <= rows
    && (received.outcome.Refused? || received.outcome.Unreadable? || received.outcome.ColumnsMissing?)
  }

  lemma ReceiveStops<V>(
      reader: Reader<V>, header: seq<Message<V>>, columns: seq<string>, chunks: seq<Message<V>>, later: seq<Message<V>>)
    requires AllRows(chunks) && columns != [] && !TakesChunks(reader, columns, chunks, |chunks|)
    ensures IsStoppedAt(Receive(reader, Behind(header, chunks, later), |header|, columns, []),
                        RowsBetween(chunks, 0, |chunks|), |header|, |header| + |chunks|)
  {
    var stop := FirstStop(reader, columns, chunks, |chunks|);
    ReceiveChunks(reader, header, columns, chunks, later, stop);
    TakeChunk(reader, columns, chunks, stop);
    ChunkAt(header, chunks, later, stop);
    RowsGrow(chunks, stop + 1, |chunks|);
  }

  lemma ReceiveEnd<V>(reader: Reader<V>, messages: seq<Message<V>>, i: nat, columns: seq<string>, rows: seq<seq<V>>)
    requires i < |messages| && IsTerminal(messages[i])
    ensures var received := Receive(reader, messages, i, columns, rows);
            received.read == i + 1
            && (reader.parses(messages[i]) ==>
                  received == Received(columns, rows, if messages[i].Failure? then AgentFailed else Completed, i + 1))
  {
  }

  /** With columns and a consumer that takes everything, the client is through after the terminal message. */
  lemma ReceiveGoesThrough<V>(
      reader: Reader<V>, header: seq<Message<V>>, columns: seq<string>, chunks: seq<Message<V>>, later: seq<Message<V>>)
    requires AllRows(chunks) && later != [] && IsTerminal(later[0])
    requires chunks == [] || (columns != [] && TakesChunks(reader, columns, chunks, |chunks|))
    ensures var received := Receive(reader, Behind(header, chunks, later), |header|, columns, []);
            var outcome := if later[0].Failure? then AgentFailed else Completed;
            received.read == |header| + |chunks| + 1
            && (reader.parses(later[0]) ==>
                  received == Received(columns, RowsBetween(chunks, 0, |chunks|), outcome, received.read))
  {
    var (all, n) := (Behind(header, chunks, later), |header| + |chunks|);
    assert all[n] == later[0];
    if chunks != [] {
      ReceiveChunks(reader, header, columns, chunks, later, |chunks|);
    }
    ReceiveEnd(reader, all, n, columns, RowsBetween(chunks, 0, |chunks|));
  }

  /** Without columns, the client gives up at the first chunk. */
  lemma ReceiveWithoutColumns<V>(
      reader: Reader<V>, header: seq<Message<V>>, chunks: seq<Message<V>>, later: seq<Message<V>>)
    requires AllRows(chunks) && chunks != []
    ensures IsStoppedAt(Receive(reader, Behind(header, chunks, later), |header|, [], []),
                        RowsBetween(chunks, 0, |chunks|), |header|, |header| + |chunks|)
  {
    ChunkAt(header, chunks, later, 0);
  }

  function Named(columns: Option<seq<string>>): seq<string> {
    if columns.Some? then columns.value else []
  }

  /** The columns, if they are announced, can be read, and the consumer takes them. */
  predicate TakesHeader<V>(reader: Reader<V>, id: int, columns: Option<seq<string>>) {
    columns.Some? ==> reader.parses(ColumnsChunk(id, columns.value)) && reader.takesColumns(columns.value)
  }

  lemma ReceiveHeader<V>(reader: Reader<V>, id: int, columns: Option<seq<string>>, messages: seq<Message<V>>)
    requires Header(id, columns) <= messages
    ensures var (received, h) := (Receive(reader, messages, 0, [], []), |Header<V>(id, columns)|);
            if TakesHeader(reader, id, columns) then received == Receive(reader, messages, h, Named(columns), [])
            else received.read == 1 && received.rows == []
                 && (received.outcome.Refused? || received.outcome.Unreadable?)
  {
    assert columns.Some? ==> messages[0] == Header<V>(id, columns)[0];
  }

  lemma ChunksAreRows<V>(id: int, rows: seq<seq<V>>)
    ensures AllRows(Chunks(id, rows))
  {
  }

  lemma NoRowsNoChunks<V>(id: int, rows: seq<seq<V>>)
    ensures Chunks(id, rows) == [] <==> rows == []
  {
    if rows != [] && |rows| < BATCH {
      assert Rest(rows) == rows;
    }
  }

  /** Nothing stops the client: it can read all, there are columns or no rows, and the consumer takes everything. */
  ghost predicate IsWelcome<V>(reader: Reader<V>, id: int, columns: Option<seq<string>>, rows: seq<seq<V>>) {
    TakesHeader(reader, id, columns)
    && (Named(columns) != [] || rows == [])
    && (forall k :: 0 <= k < |Chunks(id, rows)| ==>
          reader.parses(Chunks(id, rows)[k])
          && (Chunks(id, rows)[k].RowsChunk? ==> reader.decodes(Chunks(id, rows)[k].rows)))
    && TakesAll(reader, Named(columns), rows)
  }

  lemma WelcomeChunks<V>(reader: Reader<V>, id: int, columns: Option<seq<string>>, rows: seq<seq<V>>)
    requires TakesHeader(reader, id, columns) && Named(columns) != [] && AllRows(Chunks(id, rows))
    ensures IsWelcome(reader, id, columns, rows)
       <==> TakesChunks(reader, Named(columns), Chunks(id, rows), |Chunks(id, rows)|)
  {
    RowsInChunks(id, rows);
  }

  /**
   The whole way. Whatever follows in the pipe, the client takes all the messages of its request if and only if
   it can read them, there are columns or no rows, and its consumer takes the columns and every row. Then exactly
   the rows the driver got into the stream have been handed on, in order, and the call ends as the driver ended.
   Otherwise the client has handed on a front part of the rows and has left messages in the pipe.
   */
  lemma StreamReachesClient<V>(
      reader: Reader<V>, id: int, columns: Option<seq<string>>, rows: seq<seq<V>>, failed: bool, later: seq<Message<V>>)
    ensures var t := Transcript(id, columns, rows, failed);
            var received := Receive(reader, t + later, 0, [], []);
            (received.read == |t| <==> IsWelcome(reader, id, columns, rows))
            && (received.read == |t| && reader.parses(t[|t| - 1]) ==>
                  received == Received(Named(columns), rows, if failed then AgentFailed else Completed, |t|))
            && (received.read != |t| ==> IsStoppedAt(received, rows, 0, |t| - 1))
  {
    var last: Message<V> := if failed then Failure(id) else DoneChunk(id);
    var (header, chunks) := (Header<V>(id, columns), Chunks(id, rows));
    var all := Behind(header, chunks, [last] + later);
    assert Transcript(id, columns, rows, failed) + later == all;
    ReceiveHeader(reader, id, columns, all);
    ChunksAreRows(id, rows);
    NoRowsNoChunks(id, rows);
    RowsInChunks(id, rows);
    if TakesHeader(reader, id, columns) {
      AfterHeader(reader, id, columns, rows, [last] + later);
    } else {
      assert columns.Some? && |header| == 1;
    }
  }

  lemma AfterHeader<V>(
      reader: Reader<V>, id: int, columns: Option<seq<string>>, rows: seq<seq<V>>, later: seq<Message<V>>)
    requires TakesHeader(reader, id, columns) && later != [] && IsTerminal(later[0])
    ensures var (header, chunks) := (Header<V>(id, columns), Chunks(id, rows));
            var n := |header| + |chunks|;
            var received := Receive(reader, Behind(header, chunks, later), |header|, Named(columns), []);
            var outcome := if later[0].Failure? then AgentFailed else Completed;
            if IsWelcome(reader, id, columns, rows)
            then received.read == n + 1
                 && (reader.parses(later[0]) ==> received == Received(Named(columns), rows, outcome, n + 1))
            else IsStoppedAt(received, rows, |header|, n)
  {
    var (header, chunks) := (Header<V>(id, columns), Chunks(id, rows));
    ChunksAreRows(id, rows);
    NoRowsNoChunks(id, rows);
    RowsInChunks(id, rows);
    if Named(columns) != [] {
      WelcomeChunks(reader, id, columns, rows);
    }
    if IsWelcome(reader, id, columns, rows) {
      ReceiveGoesThrough(reader, header, Named(columns), chunks, later);
    } else if Named(columns) == [] {
      ReceiveWithoutColumns(reader, header, chunks, later);
    } else {
      ReceiveStops(reader, header, Named(columns), chunks, later);
    }
  }

  /** A call stops no later than at the first terminal message from where it begins. */
  lemma {:induction false} StopsAtTerminal<V>(
      reader: Reader<V>, messages: seq<Message<V>>, i: nat, columns: seq<string>, rows: seq<seq<V>>, k: nat)
    requires i <= k < |messages| && IsTerminal(messages[k])
    ensures Receive(reader, messages, i, columns, rows).read <= k + 1
    decreases k - i
  {
    match TakeMessage(reader, messages[i], columns, rows)
    case Going(columns', rows') =>
      if i < k {
        StopsAtTerminal(reader, messages, i + 1, columns', rows', k);
      }
    case Ended(_, _, _) =>
  }

  /**
   What the client leaves in the pipe answers its next call: whatever that call asks for, and whatever its reader
   takes, all the messages it reads are left over from the old request, as their ids say, which it does not compare.
   */
  lemma LeftoversComeFirst<V>(
      reader: Reader<V>, id: int, columns: Option<seq<string>>, rows: seq<seq<V>>, failed: bool, later: seq<Message<V>>,
      second: Reader<V>)
    requires !IsWelcome(reader, id, columns, rows)
    ensures var t := Transcript(id, columns, rows, failed);
            var pipe := t + later;
            var read := Receive(reader, pipe, 0, [], []).read;
            var next := Receive(second, pipe, read, [], []).read;
            read < next <= |t| && forall k :: read <= k < next ==> pipe[k].id == id
  {
    var t := Transcript(id, columns, rows, failed);
    var pipe := t + later;
    var read := Receive(reader, pipe, 0, [], []).read;
    var last: nat := |t| - 1;
    StreamReachesClient(reader, id, columns, rows, failed, later);
    forall k | 0 <= k < |t| ensures t[k].id == id {
      TranscriptIsWellFormed(id, columns, rows, failed, k);
    }
    TranscriptEnds(id, columns, rows, failed);
    StopsAtTerminal(second, pipe, read, [], [], last);
  }

  lemma TranscriptEnds<V>(id: int, columns: Option<seq<string>>, rows: seq<seq<V>>, failed: bool)
    ensures var t := Transcript(id, columns, rows, failed); t != [] && IsTerminal(t[|t| - 1])
  {
  }
}
