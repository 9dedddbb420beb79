/** Executing a prepared statement row by row, across failures and reconnects of the server. */
module StatementCursor {
  import opened Wrappers

  /** A row: one value or NULL for each field. */
  type Row = seq<Option<string>>

  datatype Table = Table(fields: nat, rows: seq<Row>) {
    ghost predicate Valid() {
      forall i :: 0 <= i < |rows| ==> |rows[i]| == fields
    }
  }

  /** How the server answers a query. */
  datatype Reply = Refused | NoTable | NotStored | Stored(table: Table)

  /** What the world does during one step: whether the handle still answers, which handle a new
      connection would get (none if it fails), and the reply to a query if one is sent. */
  datatype World = World(pingOk: bool, connect: Option<nat>, reply: Reply)

  datatype Code = ERROR | ROW | DONE

  class MariaDBConnection {
    var handle: Option<nat>

    constructor (handle: Option<nat>)
      ensures this.handle == handle
    {
      this.handle := handle;
    }

    method EnsureConnection(w: World) returns (ok: bool)
      modifies this
      ensures handle == HandleAfter(old(handle), w) && ok == handle.Some?
      ensures handle == if old(handle).Some? && w.pingOk then old(handle) else w.connect
    {
      if handle.Some? && w.pingOk { return true; }
      handle := w.connect;
      return handle.Some?;
    }
  }

  function HandleAfter(handle: Option<nat>, w: World): Option<nat> {
    if handle.Some? && w.pingOk then handle else w.connect
  }

  /** A stored result and how many of its rows have been fetched. */
  datatype Result = Result(table: Table, fetched: nat)

  class MariaDBStatement {
    const connection: MariaDBConnection
    var result: Option<Result>
    var currentRow: Option<Row>
    var currentLengths: seq<nat>
    var executed: bool
    var isSelect: bool
    var handleAtExecution: Option<nat>
    ghost var sent: nat  // queries sent so far

    constructor (connection: MariaDBConnection)
      ensures this.connection == connection && Valid() && Phase() == Idle && sent == 0 && currentRow == None
    {
      this.connection := connection;
      result, currentRow, currentLengths, executed, isSelect, handleAtExecution := None, None, [], false, false, None;
      sent := 0;
    }

    /** A current row has one length per column; only an executed query has a result. */
    ghost predicate Valid()
      reads this
    {
      && (executed ==> handleAtExecution.Some? && (isSelect <==> result.Some?))
      && (!executed ==> result == None)
      && (result == None ==> currentRow == None)
      && (result.Some? ==> result.value.table.Valid() && result.value.fetched <= |result.value.table.rows|)
      && currentLengths == (if currentRow.Some? then Lengths(currentRow.value) else [])
    }

    /** What the fields amount to. */
    ghost function Phase(): Phase
      requires Valid()
      reads this
    {
      if !executed then Idle
      else if result.None? then Finished(handleAtExecution.value)
      else Streaming(handleAtExecution.value, result.value.table, result.value.fetched)
    }

    /** What has become of a query that was sent: an error leaves the statement as if it had not been. */
    ghost predicate Answered(reply: Reply, handle: Option<nat>, code: Code)
      reads this
    {
      match reply
      case Refused => code == ERROR && !executed && result == None
      case NotStored => code == ERROR && !executed && result == None
      case NoTable => code == DONE && executed && handleAtExecution == handle && result == None
      case Stored(table) =>
        && executed && handleAtExecution == handle
        && if table.rows == [] then code == DONE && result == Some(Result(table, 0))
           else code == ROW && currentRow == Some(table.rows[0]) && result == Some(Result(table, 1))
    }

    method ClearResult()
      modifies this`result, this`currentRow, this`currentLengths
      ensures result == None && currentRow == None && currentLengths == []
    {
      result, currentRow, currentLengths := None, None, [];
    }

    /** `mysql_fetch_row` with the bookkeeping that follows it in both places. */
    method FetchRow() returns (code: Code)
      requires result.Some? && result.value.table.Valid() && result.value.fetched <= |result.value.table.rows|
      modifies this`result, this`currentRow, this`currentLengths
      ensures var r := old(result.value);
        if r.fetched < |r.table.rows|
        then code == ROW && result == Some(r.(fetched := r.fetched + 1)) && currentRow == Some(r.table.rows[r.fetched])
             && currentLengths == Lengths(r.table.rows[r.fetched])
        else code == DONE && result == old(result) && currentRow == None && currentLengths == []
    {
      var r := result.value;
      if r.fetched == |r.table.rows| {
        currentRow, currentLengths := None, [];
        return DONE;
      }
      currentRow, currentLengths := Some(r.table.rows[r.fetched]), Lengths(r.table.rows[r.fetched]);
      result := Some(r.(fetched := r.fetched + 1));
      return ROW;
    }

    /** `mariadb_step` */
    method Step(w: World) returns (code: Code)
      requires Valid() && (w.reply.Stored? ==> w.reply.table.Valid())
      modifies this, connection
      ensures Valid() && connection.handle == HandleAfter(old(connection.handle), w)
      ensures (Phase(), code, sent - old(sent)) == Advance(old(Phase()), connection.handle, w.reply)
      ensures code == ROW ==> currentRow == Some(Phase().table.rows[Phase().fetched - 1])
      ensures code == DONE ==> currentRow == None
      // without a connection
      ensures connection.handle.None? ==>
                && code == ERROR && sent == old(sent) && executed == old(executed) && result == old(result)
                && currentRow == old(currentRow) && handleAtExecution == old(handleAtExecution)
      // a query goes out unless it has been executed on this very handle, and the reply decides
      ensures connection.handle.Some? ==>
                (sent == old(sent) <==> old(executed) && old(handleAtExecution) == connection.handle)
      ensures sent != old(sent) ==> sent == old(sent) + 1 && Answered(w.reply, connection.handle, code)
      // otherwise the next row is handed out, if there is one
      ensures connection.handle.Some? && sent == old(sent) ==>
                && executed && handleAtExecution == old(handleAtExecution)
                && if old(result).None? || old(result.value.fetched) == |old(result.value.table.rows)|
                   then code == DONE && result == old(result)
                   else code == ROW && currentRow == Some(old(result.value.table.rows)[old(result.value.fetched)]) &&
                        result == Some(old(result.value).(fetched := old(result.value.fetched) + 1))
    {
      var connected := connection.EnsureConnection(w);
      if !connected { return ERROR; }

      if executed && handleAtExecution != connection.handle {
        ClearResult();
        executed, isSelect, handleAtExecution := false, false, None;
      }

      if !executed {
        handleAtExecution := connection.handle;
        ClearResult();
        sent := sent + 1;
        if w.reply == Refused { return ERROR; }
        executed := true;
        isSelect := w.reply.NotStored? || w.reply.Stored?;
        if isSelect {
          if w.reply.NotStored? {
            executed, currentRow, currentLengths := false, None, [];
            return ERROR;
          }
          result := Some(Result(w.reply.table, 0));
          code := FetchRow();
          return;
        }
        currentRow, currentLengths := None, [];
        return DONE;
      }

      if !isSelect || result.None? { return DONE; }
      code := FetchRow();
    }

    /** `mariadb_column_text`: NULL, an out-of-range column and the lack of a row all give nothing. */
    method ColumnText(column: int) returns (text: Option<string>)
      requires Valid()
      ensures text.Some? <==> currentRow.Some? && 0 <= column < |currentRow.value| && currentRow.value[column].Some?
      ensures text.Some? ==> text == currentRow.value[column]
    {
      if currentRow.None? || column < 0 || column >= |currentLengths| { return None; }
      return currentRow.value[column];
    }

    /** `mariadb_column_bytes` */
    method ColumnBytes(column: int) returns (bytes: nat)
      requires Valid()
      ensures bytes == if currentRow.Some? && 0 <= column < |currentRow.value| && currentRow.value[column].Some?
                       then |currentRow.value[column].value| else 0
    {
      if column < 0 || column >= |currentLengths| { return 0; }
      return currentLengths[column];
    }
  }

  function Lengths(row: Row): (lengths: seq<nat>)
    ensures |lengths| == |row|
    ensures forall i :: 0 <= i < |row| ==> lengths[i] == if row[i].Some? then |row[i].value| else 0
  {
    seq(|row|, i requires 0 <= i < |row| => if row[i].Some? then |row[i].value| else 0)
  }

  /** A statement that has nothing running, is handing out rows, or ran a query without rows. */
  datatype Phase =
    | Idle
    | Streaming(handle: nat, table: Table, fetched: nat)
    | Finished(handle: nat)

  /** One step of the protocol: next phase, code returned, queries sent.  `handle` is the
      connection's handle after it was checked. */
  ghost function Advance(p: Phase, handle: Option<nat>, reply: Reply): (Phase, Code, int)
  {
    if handle.None? then (p, ERROR, 0)
    else match p
         case Idle => Execute(handle.value, reply)
         case Finished(h) => if h == handle.value then (p, DONE, 0) else Execute(handle.value, reply)
         case Streaming(h, table, fetched) =>
           if h != handle.value then Execute(handle.value, reply)
           else if fetched < |table.rows| then (p.(fetched := fetched + 1), ROW, 0) else (p, DONE, 0)
  }

  ghost function Execute(handle: nat, reply: Reply): (Phase, Code, int) {
    match reply
    case Refused => (Idle, ERROR, 1)
    case NotStored => (Idle, ERROR, 1)
    case NoTable => (Finished(handle), DONE, 1)
    case Stored(table) =>
      if table.rows == [] then (Streaming(handle, table, 0), DONE, 1) else (Streaming(handle, table, 1), ROW, 1)
  }

  /** What a step finds: the connection's handle after the check, and the reply should a query be sent. */
  datatype Ask = Ask(handle: Option<nat>, reply: Reply)

  ghost function PhaseAfter(p: Phase, asks: seq<Ask>): Phase {
    if asks == [] then p
    else var before := PhaseAfter(p, asks[..|asks| - 1]);
         Advance(before, asks[|asks| - 1].handle, asks[|asks| - 1].reply).0
  }

  /** Code and queries of the `i`-th step of a run. */
  ghost function StepOf(p: Phase, asks: seq<Ask>, i: nat): (Phase, Code, int)
    requires i < |asks|
  {
    Advance(PhaseAfter(p, asks[..i]), asks[i].handle, asks[i].reply)
  }

  /** Steps that found a connection, among the first `i`. */
  ghost function Connected(asks: seq<Ask>, i: nat): nat
    requires i <= |asks|
  {
    if i == 0 then 0 else Connected(asks, i - 1) + if asks[i - 1].handle.Some? then 1 else 0
  }

  /** A run whose first step executes a query with a stored result on handle `h`, and that sees no
      other handle: outages give errors and change nothing, the query is sent once, and the steps
      that find the connection get the rows from the first one on and then "done" for ever. */
  lemma {:induction false} SteadyRun(h: nat, table: Table, asks: seq<Ask>, i: nat)
    requires i < |asks| && asks[0] == Ask(Some(h), Stored(table))
    requires forall k :: 0 <= k < |asks| ==> asks[k].handle == None || asks[k].handle == Some(h)
    ensures var (after, code, sent) := StepOf(Idle, asks, i);
      var k := Connected(asks, i);
      && code == (if asks[i].handle.None? then ERROR else if k < |table.rows| then ROW else DONE)
      && sent == (if i == 0 then 1 else 0)
      && after == Streaming(h, table, if Connected(asks, i + 1) < |table.rows| then Connected(asks, i + 1)
          else |table.rows|)
  {
    if i == 0 {
      assert asks[..0] == [];
      assert Connected(asks, 1) == 1;
    } else {
      SteadyRun(h, table, asks, i - 1);
      assert asks[..i][..i - 1] == asks[..i - 1] && asks[..i][i - 1] == asks[i - 1];
      assert PhaseAfter(Idle, asks[..i]) == StepOf(Idle, asks, i - 1).0;
      ConnectedPositive(asks, i);
    }
  }

  lemma {:induction false} ConnectedPositive(asks: seq<Ask>, i: nat)
    requires 0 < i <= |asks| && asks[0].handle.Some?
    ensures Connected(asks, i) >= 1
  {
    if i > 1 { ConnectedPositive(asks, i - 1); }
  }

  /** A different handle makes the statement start over, whatever it was doing. */
  lemma ChangedHandleRestarts(p: Phase, handle: nat, reply: Reply)
    requires p.Streaming? || p.Finished? ==> p.handle != handle
    ensures Advance(p, Some(handle), reply) == Advance(Idle, Some(handle), reply)
    ensures reply.Stored? && reply.table.rows != [] ==>
              Advance(p, Some(handle), reply) == (Streaming(handle, reply.table, 1), ROW, 1)
  {
  }

  /** In every run, a query is sent exactly when a connection is found and the statement is idle or
      was executed on another handle; an execution that fails leaves it idle, to be sent again by
      the next step that finds a connection. */
  lemma SentWhenNeeded(asks: seq<Ask>, i: nat)
    requires i + 1 < |asks|
    ensures var p := PhaseAfter(Idle, asks[..i]);
            var (after, code, sent) := StepOf(Idle, asks, i);
            && (sent == 1 <==> asks[i].handle.Some? && (p == Idle || p.handle != asks[i].handle.value))
            && (code == ERROR && asks[i].handle.Some? ==> after == Idle)
            && (after == Idle && asks[i + 1].handle.Some? ==> StepOf(Idle, asks, i + 1).2 == 1)
            && (asks[i].handle.None? ==> code == ERROR && after == p)
  {
    assert asks[..i + 1][..i] == asks[..i] && asks[..i + 1][i] == asks[i];
  }

  /** In every run, a step that sends a query returns what the reply calls for. */
  lemma ReplyDecides(asks: seq<Ask>, i: nat)
    requires i < |asks|
    ensures var (after, code, sent) := StepOf(Idle, asks, i);
            sent == 1 ==>
              match asks[i].reply
              case Refused => code == ERROR && after == Idle
              case NotStored => code == ERROR && after == Idle
              case NoTable => code == DONE && after == Finished(asks[i].handle.value)
              case Stored(table) =>
                && code == (if table.rows == [] then DONE else ROW)
                && after == Streaming(asks[i].handle.value, table, if table.rows == [] then 0 else 1)
  {
  }

  /** As long as the server refuses the query or its result cannot be stored, every step is an error, and
      every step that finds a connection sends the query once more. */
  lemma {:induction false} RefusedRun(asks: seq<Ask>, i: nat)
    requires i < |asks| && forall k :: 0 <= k <= i ==> asks[k].reply.Refused? || asks[k].reply.NotStored?
    ensures StepOf(Idle, asks, i) == (Idle, ERROR, if asks[i].handle.Some? then 1 else 0)
  {
    if i == 0 {
      assert asks[..0] == [];
    } else {
      RefusedRun(asks, i - 1);
      assert asks[..i][..i - 1] == asks[..i - 1] && asks[..i][i - 1] == asks[i - 1];
    }
  }

  /** A query without a table is done at once, and on its handle done for ever, without being sent again. */
  lemma {:induction false} NoTableRun(h: nat, asks: seq<Ask>, i: nat)
    requires i < |asks| && asks[0] == Ask(Some(h), NoTable)
    requires forall k :: 0 <= k < |asks| ==> asks[k].handle == None || asks[k].handle == Some(h)
    ensures StepOf(Idle, asks, i) ==
              (Finished(h), if asks[i].handle.None? then ERROR else DONE, if i == 0 then 1 else 0)
  {
    if i == 0 {
      assert asks[..0] == [];
    } else {
      NoTableRun(h, asks, i - 1);
      assert asks[..i][..i - 1] == asks[..i - 1] && asks[..i][i - 1] == asks[i - 1];
    }
  }
}
