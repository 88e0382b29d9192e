/** The consumer process (app-consumer/index.js): each message of the
    weather topic is decoded and written as one row of the `weather_data`
    table through a fresh ingestion session.

    The database client is modelled by what the handler asks of it: the
    session events in order, and the row it asks to write.  Whether the
    client takes the value of one builder call (its own checks on symbol,
    float, string and timestamp values) is code outside this model and
    enters as the parameter `accepts`; a refused value is an exception the
    handler catches.  `Date.now()` enters as the parameter `nowMillis`.
 */
module Consumer {

  import opened Wrappers
  import Js
  import Json
  import Kafka

  // ---------------------------------------------------------------------
  // Table schema
  // ---------------------------------------------------------------------

  /** The table every row goes to. */
  const Table: string := "weather_data"

  /** How the client is asked to store a column. */
  datatype Kind = SymbolKind | TimestampKind | FloatKind | StringKind

  /** One column of the row: its name, how it is stored, and the message
      field it is read from. */
  datatype ColumnSpec = ColumnSpec(column: string, kind: Kind, field: string)

  /** The columns `saveToQuestDB` writes, in the order it writes them. */
  const Schema: seq<ColumnSpec> := [
    ColumnSpec("city", SymbolKind, "city"),
    ColumnSpec("timezone", SymbolKind, "timezone"),
    ColumnSpec("timestamp", TimestampKind, "timestamp"),
    ColumnSpec("temperature", FloatKind, "temperature"),
    ColumnSpec("sunrise", TimestampKind, "sunrise"),
    ColumnSpec("sunset", TimestampKind, "sunset"),
    ColumnSpec("feels_like", FloatKind, "feels_like"),
    ColumnSpec("pressure", FloatKind, "pressure"),
    ColumnSpec("humidity", FloatKind, "humidity"),
    ColumnSpec("weather_main", StringKind, "weather_main"),
    ColumnSpec("weather_desc", StringKind, "weather_description"),
    ColumnSpec("weather_icon", StringKind, "weather_icon")
  ]

  /** No column is read from, or named after, `clouds`. */
  lemma SchemaDropsClouds()
    ensures forall i :: 0 <= i < |Schema| ==> Schema[i].field != "clouds" && Schema[i].column != "clouds"
  {
  }

  /** The description is stored under a shorter column name; every other
      column is named after its field. */
  lemma SchemaRenamesOnlyDescription()
    ensures forall i :: 0 <= i < |Schema| ==>
      (Schema[i].column != Schema[i].field <==> Schema[i].field == "weather_description")
    ensures exists i :: 0 <= i < |Schema| && Schema[i] == ColumnSpec("weather_desc", StringKind, "weather_description")
  {
    assert Schema[10] == ColumnSpec("weather_desc", StringKind, "weather_description");
  }

  // ---------------------------------------------------------------------
  // Rows
  // ---------------------------------------------------------------------

  /** A column value as handed to the client: the JavaScript value read
      from the message (None for `undefined`), or, for a timestamp column,
      the Number `parseInt` made of it. */
  datatype CellValue =
    | SymbolValue(symbol: Option<Json.Value>)
    | TimestampValue(time: Js.Number)
    | FloatValue(float: Option<Json.Value>)
    | StringValue(text: Option<Json.Value>)

  datatype Cell = Cell(column: string, value: CellValue)

  /** A row: table, columns in write order, and the designated timestamp in
      milliseconds. */
  datatype Row = Row(table: string, cells: seq<Cell>, atMillis: int)

  /** The argument the builder call for column `spec` receives, given the
      field the message holds.  Symbol, float and string columns pass the
      field on as read, whatever it is.  A timestamp column passes
      `parseInt(field)`: decimal text of an integer within 2^53 becomes that
      integer, `undefined` becomes NaN, and the ToString inside `parseInt`
      throws a TypeError on an object with its own `toString`. */
  function CellOf(spec: ColumnSpec, field: Option<Json.Value>): (r: Js.Result<Cell>)
    ensures r.Success? ==> r.value.column == spec.column
    ensures r.Success? ==> (spec.kind == TimestampKind <==> r.value.value.TimestampValue?)
    ensures spec.kind == SymbolKind ==> r == Success(Cell(spec.column, SymbolValue(field)))
    ensures spec.kind == FloatKind ==> r == Success(Cell(spec.column, FloatValue(field)))
    ensures spec.kind == StringKind ==> r == Success(Cell(spec.column, StringValue(field)))
    ensures r.Failure? <==> spec.kind == TimestampKind && field.Some? && Json.ToStringThrows(field.value)
    ensures r.Failure? ==> r.error == Js.TypeError
    ensures spec.kind == TimestampKind && field.None? ==> r == Success(Cell(spec.column, TimestampValue(Js.NaN)))
  {
    Js.ParseIntOfUndefined();
    match spec.kind
    case SymbolKind => Success(Cell(spec.column, SymbolValue(field)))
    case FloatKind => Success(Cell(spec.column, FloatValue(field)))
    case StringKind => Success(Cell(spec.column, StringValue(field)))
    case TimestampKind =>
      var text :- Json.ToJsString(field);
      Success(Cell(spec.column, TimestampValue(Js.ParseInt(text))))
  }

  /** A timestamp column holding the decimal text of an integer within
      2^53, as the producer writes its times, gets exactly that integer. */
  lemma CellOfDecimalTime(spec: ColumnSpec, n: int)
    requires spec.kind == TimestampKind && -Js.TwoTo53 <= n <= Js.TwoTo53
    ensures CellOf(spec, Some(Json.Str(Js.DecimalString(n)))) == Success(Cell(spec.column, TimestampValue(Js.Finite(n))))
  {
    Js.ParseIntRoundTrip(n);
  }

  /** Column `i` of the row for `data`: its field is read, which throws a
      TypeError on `null`, and its argument is computed. */
  function ColumnCell(data: Json.Value, i: nat): (r: Js.Result<Cell>)
    requires i < |Schema|
    ensures data.Null? ==> r == Failure(Js.TypeError)
    ensures !data.Null? ==> r == CellOf(Schema[i], Json.Property(data, Schema[i].field).value)
  {
    var field :- Json.Property(data, Schema[i].field);
    CellOf(Schema[i], field)
  }

  /** The row `saveToQuestDB(data)` describes, from the arguments of its
      builder calls alone: it exists exactly when no argument throws, and
      an argument throws only with a TypeError. */
  function BuildRow(data: Json.Value, nowMillis: int): (r: Js.Result<Row>)
    ensures r.Success? <==> forall i :: 0 <= i < |Schema| ==> ColumnCell(data, i).Success?
    ensures data.Null? ==> r.Failure?
    ensures r.Failure? ==> r.error == Js.TypeError
    ensures r.Success? ==>
      && r.value.table == Table
      && r.value.atMillis == nowMillis
      && |r.value.cells| == |Schema|
      && forall i :: 0 <= i < |Schema| ==> r.value.cells[i] == ColumnCell(data, i).value
  {
    if data.Null? then
      assert ColumnCell(data, 0).Failure?;
      Failure(Js.TypeError)
    else if forall i :: 0 <= i < |Schema| ==> ColumnCell(data, i).Success? then
      Success(Row(Table, seq(|Schema|, i requires 0 <= i < |Schema| => ColumnCell(data, i).value), nowMillis))
    else
      Failure(Js.TypeError)
  }

  // ---------------------------------------------------------------------
  // One ingestion session
  // ---------------------------------------------------------------------

  /** The builder call for column `i`: its argument is computed, which may
      throw a TypeError, and the client, handed the cell, either takes it or
      throws its own error. */
  function ColumnCall(data: Json.Value, i: nat, accepts: Cell -> bool): (r: Js.Result<Cell>)
    requires i < |Schema|
    ensures r.Success? <==> ColumnCell(data, i).Success? && accepts(ColumnCell(data, i).value)
    ensures r.Success? ==> r.value == ColumnCell(data, i).value
    ensures r.Failure? ==> r.error == if ColumnCell(data, i).Failure? then Js.TypeError else Js.ClientError
  {
    var cell :- ColumnCell(data, i);
    if accepts(cell) then Success(cell) else Failure(Js.ClientError)
  }

  /** The builder calls of `saveToQuestDB`, in column order. */
  function ColumnCalls(data: Json.Value, accepts: Cell -> bool): (rs: seq<Js.Result<Cell>>)
    ensures |rs| == |Schema|
    ensures forall i :: 0 <= i < |Schema| ==> rs[i] == ColumnCall(data, i, accepts)
  {
    seq(|Schema|, i requires 0 <= i < |Schema| => ColumnCall(data, i, accepts))
  }

  /** What the handler does with the client, in order. */
  datatype SessionEvent =
    | Open                     // Sender.fromConfig
    | Write(row: Row)          // the chain up to `.at(...)` completed
    | Caught(error: Js.Exception)  // the chain threw; the error is logged
    | Flush
    | Close

  /** A session opens, writes one row or catches one exception, then
      flushes and closes. */
  predicate WellFormedSession(events: seq<SessionEvent>) {
    && |events| == 4
    && events[0] == Open
    && (events[1].Write? || events[1].Caught?)
    && events[2] == Flush
    && events[3] == Close
  }

  /** `saveToQuestDB(data)`.  It never throws: the first builder call that
      throws is caught, whether its argument threw (reading a field of
      `null`, or `parseInt` of an object with its own `toString`) or the
      client refused the value, and the session is flushed and closed
      whatever happened.  The row is written exactly when every call goes
      through; `SaveWritesBuiltRow` adds that it is the row `BuildRow`
      describes, and `SaveCatchesFirstFailure` which exception is caught. */
  function SaveToQuestDB(data: Json.Value, nowMillis: int, accepts: Cell -> bool): (events: seq<SessionEvent>)
    ensures WellFormedSession(events)
    ensures events[1].Write? <==> forall i :: 0 <= i < |Schema| ==> ColumnCall(data, i, accepts).Success?
    ensures events[1].Write? ==> events[1].row.table == Table && events[1].row.atMillis == nowMillis
    ensures data.Null? ==> events[1] == Caught(Js.TypeError)
  {
    var written := Js.Collect(ColumnCalls(data, accepts));
    var outcome := if written.Failure? then Caught(written.error) else Write(Row(Table, written.value, nowMillis));
    if data.Null? then
      Js.CollectFirstFailure(ColumnCalls(data, accepts), 0);
      [Open, outcome, Flush, Close]
    else
      [Open, outcome, Flush, Close]
  }

  /** The exception caught is the one the first builder call that throws
      raises: a TypeError when its argument threw, the client's error when
      the client refused the value. */
  lemma SaveCatchesFirstFailure(data: Json.Value, nowMillis: int, accepts: Cell -> bool, j: nat)
    requires j < |Schema| && ColumnCall(data, j, accepts).Failure?
    requires forall i :: 0 <= i < j ==> ColumnCall(data, i, accepts).Success?
    ensures SaveToQuestDB(data, nowMillis, accepts)[1] == Caught(ColumnCall(data, j, accepts).error)
    ensures SaveToQuestDB(data, nowMillis, accepts)[1].error
      == if ColumnCell(data, j).Failure? then Js.TypeError else Js.ClientError
  {
    Js.CollectFirstFailure(ColumnCalls(data, accepts), j);
  }

  /** The row a session writes is the row `BuildRow` describes: when the
      whole chain goes through, every argument was computed. */
  lemma SaveWritesBuiltRow(data: Json.Value, nowMillis: int, accepts: Cell -> bool)
    requires SaveToQuestDB(data, nowMillis, accepts)[1].Write?
    ensures BuildRow(data, nowMillis) == Success(SaveToQuestDB(data, nowMillis, accepts)[1].row)
  {
    var rs := ColumnCalls(data, accepts);
    var cells := Js.Collect(rs).value;
    forall i | 0 <= i < |Schema|
      ensures ColumnCell(data, i).Success? && cells[i] == ColumnCell(data, i).value
    {
      assert rs[i] == Success(cells[i]);
      assert ColumnCall(data, i, accepts) == Success(cells[i]);
    }
    var row := BuildRow(data, nowMillis).value;
    assert row.cells == cells;
  }

  /** A message whose `timestamp` is an object with its own `toString`. */
  function OwnToStringSample(): Json.Value {
    Json.Obj([Json.Member("city", Json.Str("x")), Json.Member("timezone", Json.Str("y")),
              Json.Member("timestamp", Json.Obj([Json.Member("toString", Json.Num("0"))]))])
  }

  /** Its first three columns: the city and the time zone are read as
      written, and `parseInt` of the timestamp throws a TypeError. */
  lemma OwnToStringSampleColumns(accepts: Cell -> bool)
    ensures ColumnCell(OwnToStringSample(), 0) == Success(Cell("city", SymbolValue(Some(Json.Str("x")))))
    ensures ColumnCell(OwnToStringSample(), 1) == Success(Cell("timezone", SymbolValue(Some(Json.Str("y")))))
    ensures ColumnCall(OwnToStringSample(), 2, accepts) == Failure(Js.TypeError)
  {
    var ms := OwnToStringSample().members;
    SampleLookups(ms);
    var time := ms[2].value;
    assert Json.ToStringThrows(time) by {
      assert time.members[0].key == "toString";
    }
    assert Schema[0].field == "city" && Schema[1].field == "timezone" && Schema[2].field == "timestamp";
  }

  lemma SampleLookups(ms: seq<Json.Member>)
    requires ms == OwnToStringSample().members
    ensures Json.Lookup(ms, "city") == Some(Json.Str("x"))
    ensures Json.Lookup(ms, "timezone") == Some(Json.Str("y"))
    ensures Json.Lookup(ms, "timestamp") == Some(ms[2].value)
  {
    assert ms[..2] == ms[..2][..1] + [ms[1]] && ms[..2][..1] == [ms[0]];
    assert Json.Lookup(ms[..2], "city") == Some(Json.Str("x"));
  }

  /** `parseInt` throws at the timestamp column of that message, so nothing
      is written, whatever the client makes of the other columns. */
  lemma OwnToStringIsNotWritten(nowMillis: int, accepts: Cell -> bool)
    ensures SaveToQuestDB(OwnToStringSample(), nowMillis, accepts)[1].Caught?
  {
    OwnToStringSampleColumns(accepts);
  }

  /** Whenever the client takes the city and the time zone, a `timestamp`
      field whose ToString throws makes the TypeError from `parseInt` the
      exception that is caught. */
  lemma ThrowingTimestampIsCaught(data: Json.Value, nowMillis: int, accepts: Cell -> bool)
    requires ColumnCall(data, 0, accepts).Success? && ColumnCall(data, 1, accepts).Success?
    requires data.Obj? && Json.Lookup(data.members, "timestamp").Some?
    requires Json.ToStringThrows(Json.Lookup(data.members, "timestamp").value)
    ensures SaveToQuestDB(data, nowMillis, accepts)[1] == Caught(Js.TypeError)
  {
    assert Schema[2].field == "timestamp" && Schema[2].kind == TimestampKind;
    assert ColumnCell(data, 2).Failure?;
    SaveCatchesFirstFailure(data, nowMillis, accepts, 2);
  }

  /** `processMessage(message)`: a message without a value throws a
      TypeError, text that is not JSON throws a SyntaxError, and both
      escape the handler; anything else is saved. */
  function ProcessMessage(message: Kafka.Message, nowMillis: int, accepts: Cell -> bool): (r: Js.Result<seq<SessionEvent>>)
    ensures message.value.None? ==> r == Failure(Js.TypeError)
    ensures message.value.Some? ==>
      && (r.Success? <==> Json.Parse(message.value.value).Success?)
      && (r.Failure? ==> r.error == Js.SyntaxError)
      && (r.Success? ==> r.value == SaveToQuestDB(Json.Parse(message.value.value).value, nowMillis, accepts))
  {
    if message.value.None? then
      Failure(Js.TypeError)
    else
      var data :- Json.Parse(message.value.value);
      Success(SaveToQuestDB(data, nowMillis, accepts))
  }

  // ---------------------------------------------------------------------
  // The consumer loop
  // ---------------------------------------------------------------------

  /** The rows a sequence of sessions wrote, in order. */
  function WrittenRows(sessions: seq<seq<SessionEvent>>): seq<Row>
    requires forall i :: 0 <= i < |sessions| ==> WellFormedSession(sessions[i])
  {
    if |sessions| == 0 then []
    else WrittenRows(sessions[..|sessions| - 1])
         + (var last := sessions[|sessions| - 1]; assert WellFormedSession(last); if last[1].Write? then [last[1].row] else [])
  }

  /** Each session writes at most one row. */
  lemma {:induction false} AtMostOneRowPerSession(sessions: seq<seq<SessionEvent>>)
    requires forall i :: 0 <= i < |sessions| ==> WellFormedSession(sessions[i])
    ensures |WrittenRows(sessions)| <= |sessions|
    ensures (forall i :: 0 <= i < |sessions| ==> sessions[i][1].Write?) ==> |WrittenRows(sessions)| == |sessions|
  {
    if |sessions| > 0 {
      AtMostOneRowPerSession(sessions[..|sessions| - 1]);
    }
  }

  /** Rows keep the order of the sessions that wrote them. */
  lemma {:induction false} WrittenRowsAppend(a: seq<seq<SessionEvent>>, b: seq<seq<SessionEvent>>)
    requires forall i :: 0 <= i < |a| ==> WellFormedSession(a[i])
    requires forall i :: 0 <= i < |b| ==> WellFormedSession(b[i])
    ensures forall i :: 0 <= i < |a + b| ==> WellFormedSession((a + b)[i])
    ensures WrittenRows(a + b) == WrittenRows(a) + WrittenRows(b)
    decreases |b|
  {
    if |b| > 0 {
      var b' := b[..|b| - 1];
      assert (a + b)[..|a + b| - 1] == a + b';
      WrittenRowsAppend(a, b');
    } else {
      assert a + b == a;
    }
  }

  /** The outcome of the handler loop: the sessions of the messages
      handled, in order, and the exception that stopped the loop, if any. */
  datatype ConsumerRun = ConsumerRun(sessions: seq<seq<SessionEvent>>, stoppedBy: Option<Js.Exception>)

  /** `consumer.run({ eachMessage })` over the messages of the topic in
      delivery order; `clock[i]` is `Date.now()` when message `i` is saved.
      Messages are handled one at a time; the first message whose handler
      throws stops the loop. */
  method RunConsumer(messages: seq<Kafka.Message>, clock: seq<int>, accepts: Cell -> bool) returns (run: ConsumerRun)
    requires |clock| == |messages|
    ensures |run.sessions| <= |messages|
    ensures forall i :: 0 <= i < |run.sessions| ==>
      ProcessMessage(messages[i], clock[i], accepts) == Success(run.sessions[i])
    ensures run.stoppedBy.None? <==> |run.sessions| == |messages|
    ensures run.stoppedBy.Some? ==>
      ProcessMessage(messages[|run.sessions|], clock[|run.sessions|], accepts) == Failure(run.stoppedBy.value)
  {
    var sessions: seq<seq<SessionEvent>> := [];
    var k := 0;
    while k < |messages|
      invariant 0 <= k <= |messages|
      invariant |sessions| == k
      invariant forall i :: 0 <= i < k ==> ProcessMessage(messages[i], clock[i], accepts) == Success(sessions[i])
    {
      var outcome := ProcessMessage(messages[k], clock[k], accepts);
      if outcome.Failure? {
        return ConsumerRun(sessions, Some(outcome.error));
      }
      sessions := sessions + [outcome.value];
      k := k + 1;
    }
    return ConsumerRun(sessions, None);
  }

  /** Every session the loop ran is well formed, so the rows it wrote are
      defined, and there is at most one per message handled. */
  lemma RunWritesAtMostOneRowPerMessage(messages: seq<Kafka.Message>, clock: seq<int>, accepts: Cell -> bool, run: ConsumerRun)
    requires |clock| == |messages| && |run.sessions| <= |messages|
    requires forall i :: 0 <= i < |run.sessions| ==>
      ProcessMessage(messages[i], clock[i], accepts) == Success(run.sessions[i])
    ensures forall i :: 0 <= i < |run.sessions| ==> WellFormedSession(run.sessions[i])
    ensures |WrittenRows(run.sessions)| <= |run.sessions|
  {
    assert forall i :: 0 <= i < |run.sessions| ==> WellFormedSession(run.sessions[i]) by {
      forall i | 0 <= i < |run.sessions|
        ensures WellFormedSession(run.sessions[i])
      {
        assert messages[i].value.Some?;
      }
    }
    AtMostOneRowPerSession(run.sessions);
  }
}
