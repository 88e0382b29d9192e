/** The two processes together: what a reading becomes once the producer has
    published it and the consumer has turned the message into a row. */
module Pipeline {

  import opened Wrappers
  import Js
  import Json
  import Kafka
  import Producer
  import Consumer

  /** The reading key the consumer reads for column `i`: every key but
      `clouds`, in order. */
  function SourceIndex(i: nat): (j: nat)
    requires i < |Consumer.Schema|
    ensures j < |Producer.ReadingKeys| && j != 9
  {
    if i < 9 then i else i + 1
  }

  /** The consumer's columns read exactly the producer's keys other than
      `clouds`, in the producer's order. */
  lemma SchemaReadsReadingKeys()
    ensures Producer.ReadingKeys[9] == "clouds"
    ensures forall i :: 0 <= i < |Consumer.Schema| ==> Consumer.Schema[i].field == Producer.ReadingKeys[SourceIndex(i)]
  {
  }

  /** No key of a reading object is repeated. */
  lemma ReadingKeysDistinct()
    ensures forall a, b :: 0 <= a < b < |Producer.ReadingKeys| ==> Producer.ReadingKeys[a] != Producer.ReadingKeys[b]
  {
  }

  /** Reading a key of the decoded message gives the wire value written
      under it. */
  lemma WireField(w: Producer.WeatherReading, j: nat)
    requires j < |Producer.ReadingKeys|
    ensures Json.Property(Producer.WireValue(w), Producer.ReadingKeys[j]) == Success(Some(Producer.ReadingField(w, j, true)))
  {
    var fields := Producer.ReadingFields(w, true);
    KeysAfterDiffer(j);
    Json.LookupZip(Producer.ReadingKeys, fields, j);
    assert Producer.WireValue(w) == Json.Obj(Json.Zip(Producer.ReadingKeys, fields));
  }

  lemma KeysAfterDiffer(j: nat)
    requires j < |Producer.ReadingKeys|
    ensures forall k :: j < k < |Producer.ReadingKeys| ==> Producer.ReadingKeys[k] != Producer.ReadingKeys[j]
  {
    ReadingKeysDistinct();
  }

  /** The row a reading should become: column `i` holds the value the
      producer wrote under the key the column reads, and the row is stamped
      with the ingest clock. */
  function ReadingRow(w: Producer.WeatherReading, nowMillis: int): (row: Consumer.Row)
    ensures |row.cells| == |Consumer.Schema|
  {
    WireCellsDefined(w);
    Consumer.Row(Consumer.Table,
      seq(|Consumer.Schema|, i requires 0 <= i < |Consumer.Schema| =>
        Consumer.CellOf(Consumer.Schema[i], Some(Producer.ReadingField(w, SourceIndex(i), true))).value),
      nowMillis)
  }

  /** Every field of a decoded reading is a string or a number, so no
      column's argument throws. */
  lemma WireCellsDefined(w: Producer.WeatherReading)
    ensures forall i :: 0 <= i < |Consumer.Schema| ==>
      Consumer.CellOf(Consumer.Schema[i], Some(Producer.ReadingField(w, SourceIndex(i), true))).Success?
  {
    forall i | 0 <= i < |Consumer.Schema|
      ensures Consumer.CellOf(Consumer.Schema[i], Some(Producer.ReadingField(w, SourceIndex(i), true))).Success?
    {
      WireFieldPlain(w, SourceIndex(i));
      PlainCell(Consumer.Schema[i], Producer.ReadingField(w, SourceIndex(i), true));
    }
  }

  /** A reading's fields on the wire are strings or numbers. */
  lemma WireFieldPlain(w: Producer.WeatherReading, j: nat)
    requires j < |Producer.ReadingKeys|
    ensures Producer.ReadingField(w, j, true).Str? || Producer.ReadingField(w, j, true).Num?
  {
  }

  /** A string or a number never makes a column's argument throw. */
  lemma PlainCell(spec: Consumer.ColumnSpec, f: Json.Value)
    requires f.Str? || f.Num?
    ensures Consumer.CellOf(spec, Some(f)).Success?
  {
    assert !Json.ToStringThrows(f);
  }

  /** The consumer builds exactly that row from the decoded message. */
  lemma RowOfReading(w: Producer.WeatherReading, nowMillis: int)
    ensures Consumer.BuildRow(Producer.WireValue(w), nowMillis) == Success(ReadingRow(w, nowMillis))
  {
    var v := Producer.WireValue(w);
    var expected := ReadingRow(w, nowMillis);
    SchemaReadsReadingKeys();
    WireCellsDefined(w);
    forall i | 0 <= i < |Consumer.Schema|
      ensures Consumer.ColumnCell(v, i) == Success(expected.cells[i])
    {
      WireField(w, SourceIndex(i));
    }
    var row := Consumer.BuildRow(v, nowMillis).value;
    assert row.cells == expected.cells;
  }

  /** Reading times whose microsecond count `parseInt` recovers exactly:
      within 576,460,752,303 seconds (about 18,000 years) of the epoch the
      count stays below 2^59. */
  predicate ExactlyStorable(unixSeconds: int) {
    -576_460_752_303 <= unixSeconds <= 576_460_752_303
  }

  /** A time written as decimal text by the producer is read back by
      `parseInt` in the consumer as the same number of microseconds. */
  lemma TimeSurvivesTheWire(unixSeconds: int)
    requires ExactlyStorable(unixSeconds)
    ensures Json.ToJsString(Some(Producer.TimeValue(unixSeconds * 1_000_000, true)))
            == Success(Js.DecimalString(unixSeconds * 1_000_000))
    ensures Js.ParseInt(Js.DecimalString(unixSeconds * 1_000_000)) == Js.Finite(unixSeconds * 1_000_000)
  {
    var m := unixSeconds * 1_000_000;
    MicrosecondsOfStorable(unixSeconds);
    WireTimeText(m);
    Js.ParseIntRoundTripMultiple(m);
  }

  /** A whole number of seconds in microseconds is a multiple of 64, and
      within the storable range it is below 2^59. */
  lemma MicrosecondsOfStorable(unixSeconds: int)
    requires ExactlyStorable(unixSeconds)
    ensures (unixSeconds * 1_000_000) % 64 == 0
    ensures -Js.TwoTo59 < unixSeconds * 1_000_000 < Js.TwoTo59
  {
    var k := unixSeconds * 15_625;
    assert unixSeconds * 1_000_000 == 64 * k;
    MultipleOf64(k);
  }

  lemma MultipleOf64(k: int)
    ensures (64 * k) % 64 == 0
  {
  }

  /** A time on the wire converts to its decimal text. */
  lemma WireTimeText(m: int)
    ensures Json.ToJsString(Some(Producer.TimeValue(m, true))) == Success(Js.DecimalString(m))
  {
  }

  /** The bound is one second short of the last exact time: 576,460,752,304
      seconds in microseconds is a multiple of 128, the spacing of doubles
      there, so `parseInt` still reads it back exactly. */
  lemma BoundaryTimeExact()
    ensures !ExactlyStorable(576_460_752_304)
    ensures Js.ParseInt(Js.DecimalString(576_460_752_304 * 1_000_000)) == Js.Finite(576_460_752_304 * 1_000_000)
  {
    var m := 576_460_752_304_000_000;
    assert Js.DecimalString(m) + "" == Js.DecimalString(m);
    Js.ParseIntOfDecimal(m, "");
    BoundarySpacing();
    Js.RoundMagnitudeOfMultiple(m, 4_503_599_627_375_000);
  }

  /** The spacing of doubles around 576,460,752,304,000,000 is 128. */
  lemma BoundarySpacing()
    ensures Js.Ulp(576_460_752_304_000_000) == 128
  {
    assert Js.Ulp(4_503_599_627_375_000) == 1;
    assert Js.Ulp(9_007_199_254_750_000) == 2;
    assert Js.Ulp(18_014_398_509_500_000) == 4;
    assert Js.Ulp(36_028_797_019_000_000) == 8;
    assert Js.Ulp(72_057_594_038_000_000) == 16;
    assert Js.Ulp(144_115_188_076_000_000) == 32;
    assert Js.Ulp(288_230_376_152_000_000) == 64;
  }

  /** The first reading time past that one, and so the first whole second
      after the epoch that rounds: the Date range accepts it, but `parseInt`
      stores its microsecond count 64 too low. */
  lemma FarFutureTimeRounds()
    ensures Producer.InDateRange(576_460_752_305)
    ensures Js.ParseInt(Js.DecimalString(576_460_752_305 * 1_000_000)) == Js.Finite(576_460_752_305 * 1_000_000 - 64)
  {
    var m := 576_460_752_305_000_000;
    assert Js.DecimalString(m) + "" == Js.DecimalString(m);
    Js.ParseIntOfDecimal(m, "");
    FarFutureRounding();
  }

  /** 576,460,752,305,000,000 lies halfway between two doubles and rounds
      to the even one, the lower. */
  lemma FarFutureRounding()
    ensures Js.ToNumber(576_460_752_305_000_000) == Js.Finite(576_460_752_304_999_936)
  {
    var m := 576_460_752_305_000_000;
    FarFutureSpacing();
    var q := 4_503_599_627_382_812;
    assert m == q * 128 + 64;
    assert m / 128 == q && m % 128 == 64;
  }

  /** The spacing of doubles around 576,460,752,305,000,000 is 128. */
  lemma FarFutureSpacing()
    ensures Js.Ulp(576_460_752_305_000_000) == 128
  {
    assert Js.Ulp(4_503_599_627_382_812) == 1;
    assert Js.Ulp(9_007_199_254_765_625) == 2;
    assert Js.Ulp(18_014_398_509_531_250) == 4;
    assert Js.Ulp(36_028_797_019_062_500) == 8;
    assert Js.Ulp(72_057_594_038_125_000) == 16;
    assert Js.Ulp(144_115_188_076_250_000) == 32;
    assert Js.Ulp(288_230_376_152_500_000) == 64;
  }

  /** The message a reading is published as reaches the table through a
      session for the reading's wire value. */
  lemma ReadingReachesTable(w: Producer.WeatherReading, nowMillis: int, accepts: Consumer.Cell -> bool)
    ensures var message := Kafka.Message(Some(Producer.Serialize(Producer.ToValue(Producer.Reading(w)))));
      Consumer.ProcessMessage(message, nowMillis, accepts)
        == Success(Consumer.SaveToQuestDB(Producer.WireValue(w), nowMillis, accepts))
  {
    Producer.MessageDecodes(Producer.Reading(w));
  }

  /** A time column of the row a reading becomes holds the reading's
      microsecond count whenever that count is a whole number of seconds
      within the exactly storable range. */
  lemma TimeColumn(w: Producer.WeatherReading, nowMillis: int, i: nat, unixSeconds: int)
    requires i < |Consumer.Schema| && Consumer.Schema[i].kind == Consumer.TimestampKind
    requires ExactlyStorable(unixSeconds)
    requires Producer.ReadingField(w, SourceIndex(i), true) == Producer.TimeValue(unixSeconds * 1_000_000, true)
    ensures ReadingRow(w, nowMillis).cells[i].value == Consumer.TimestampValue(Js.Finite(unixSeconds * 1_000_000))
  {
    TimeSurvivesTheWire(unixSeconds);
  }

  /** The row a reading becomes is stamped with the ingest clock, and its
      three time columns hold the reading's times whenever those are whole
      seconds within the exactly storable range. */
  lemma ReadingTimesReachTable(w: Producer.WeatherReading, p: Producer.DataPoint, nowMillis: int)
    requires w.timestamp == p.dt * 1_000_000 && w.sunrise == p.sunrise * 1_000_000 && w.sunset == p.sunset * 1_000_000
    ensures var row := ReadingRow(w, nowMillis);
      && row.atMillis == nowMillis
      && (ExactlyStorable(p.dt) ==> row.cells[2].value == Consumer.TimestampValue(Js.Finite(p.dt * 1_000_000)))
      && (ExactlyStorable(p.sunrise) ==> row.cells[4].value == Consumer.TimestampValue(Js.Finite(p.sunrise * 1_000_000)))
      && (ExactlyStorable(p.sunset) ==> row.cells[5].value == Consumer.TimestampValue(Js.Finite(p.sunset * 1_000_000)))
  {
    TimeColumnKinds();
    TimeFieldsOnWire(w);
    if ExactlyStorable(p.dt) {
      TimeColumn(w, nowMillis, 2, p.dt);
    }
    if ExactlyStorable(p.sunrise) {
      TimeColumn(w, nowMillis, 4, p.sunrise);
    }
    if ExactlyStorable(p.sunset) {
      TimeColumn(w, nowMillis, 5, p.sunset);
    }
  }

  /** Columns 2, 4 and 5 are the time columns. */
  lemma TimeColumnKinds()
    ensures Consumer.Schema[2].kind == Consumer.Schema[4].kind == Consumer.Schema[5].kind == Consumer.TimestampKind
  {
  }

  /** The time columns read the reading's timestamp, sunrise and sunset. */
  lemma TimeFieldsOnWire(w: Producer.WeatherReading)
    ensures Producer.ReadingField(w, SourceIndex(2), true) == Producer.TimeValue(w.timestamp, true)
    ensures Producer.ReadingField(w, SourceIndex(4), true) == Producer.TimeValue(w.sunrise, true)
    ensures Producer.ReadingField(w, SourceIndex(5), true) == Producer.TimeValue(w.sunset, true)
  {
    assert SourceIndex(2) == 2 && SourceIndex(4) == 4 && SourceIndex(5) == 5;
    assert |Producer.ReadingKeys| == 13;
  }

  /** End to end: a city's observation that the producer turns into a
      reading `w` reaches the table through the message for `w`, as the row
      `w` should become, stamped with the ingest clock, whose time columns
      hold the first data point's times in microseconds. */
  lemma ObservationReachesTable(obs: Producer.Observation, city: Producer.City, w: Producer.WeatherReading, nowMillis: int, accepts: Consumer.Cell -> bool)
    requires Producer.ProcessWeatherData(Some(obs), city) == Success(Producer.Reading(w))
    ensures var message := Kafka.Message(Some(Producer.Serialize(Producer.ToValue(Producer.Reading(w)))));
      Consumer.ProcessMessage(message, nowMillis, accepts)
        == Success(Consumer.SaveToQuestDB(Producer.WireValue(w), nowMillis, accepts))
    ensures Consumer.BuildRow(Producer.WireValue(w), nowMillis) == Success(ReadingRow(w, nowMillis))
    ensures var p := Producer.FirstDataPoint(Some(obs));
      var row := ReadingRow(w, nowMillis);
      && row.atMillis == nowMillis
      && (ExactlyStorable(p.dt) ==> row.cells[2].value == Consumer.TimestampValue(Js.Finite(p.dt * 1_000_000)))
      && (ExactlyStorable(p.sunrise) ==> row.cells[4].value == Consumer.TimestampValue(Js.Finite(p.sunrise * 1_000_000)))
      && (ExactlyStorable(p.sunset) ==> row.cells[5].value == Consumer.TimestampValue(Js.Finite(p.sunset * 1_000_000)))
  {
    var p := Producer.FirstDataPoint(Some(obs));
    assert Producer.ReadsFirstEntries(w, obs, city);
    ReadingReachesTable(w, nowMillis, accepts);
    RowOfReading(w, nowMillis);
    ReadingTimesReachTable(w, p, nowMillis);
  }

  /** The message for a city without a data point is `[]`; it is handed to
      `saveToQuestDB`, whose builder calls get every field `undefined` and
      every time column NaN.  Whether a row is written is the client's
      verdict on those values. */
  lemma EmptyReadingReachesTable(nowMillis: int, accepts: Consumer.Cell -> bool)
    ensures var message := Kafka.Message(Some(Producer.Serialize(Producer.ToValue(Producer.NoReading))));
      Consumer.ProcessMessage(message, nowMillis, accepts)
        == Success(Consumer.SaveToQuestDB(Json.Arr([]), nowMillis, accepts))
    ensures var row := Consumer.BuildRow(Json.Arr([]), nowMillis).value;
      forall i :: 0 <= i < |Consumer.Schema| ==>
        row.cells[i].value == (match Consumer.Schema[i].kind
          case SymbolKind => Consumer.SymbolValue(None)
          case TimestampKind => Consumer.TimestampValue(Js.NaN)
          case FloatKind => Consumer.FloatValue(None)
          case StringKind => Consumer.StringValue(None))
  {
    Producer.MessageDecodes(Producer.NoReading);
    Js.ParseIntOfUndefined();
  }

  /** The consumer does not deduplicate: a message handled twice, as on
      redelivery, writes two rows with the same columns. */
  lemma RedeliveryWritesTwice(message: Kafka.Message, first: int, second: int, accepts: Consumer.Cell -> bool)
    requires message.value.Some? && Json.Parse(message.value.value).Success?
    requires !Json.Parse(message.value.value).value.Null?
    requires forall i :: 0 <= i < |Consumer.Schema| ==> Consumer.ColumnCall(Json.Parse(message.value.value).value, i, accepts).Success?
    ensures var s1, s2 := Consumer.ProcessMessage(message, first, accepts).value, Consumer.ProcessMessage(message, second, accepts).value;
      && Consumer.WellFormedSession(s1) && Consumer.WellFormedSession(s2)
      && |Consumer.WrittenRows([s1, s2])| == 2
      && Consumer.WrittenRows([s1, s2])[0].cells == Consumer.WrittenRows([s1, s2])[1].cells
  {
    var s1, s2 := Consumer.ProcessMessage(message, first, accepts).value, Consumer.ProcessMessage(message, second, accepts).value;
    var data := Json.Parse(message.value.value).value;
    assert s1[1].Write? && s2[1].Write?;
    Consumer.SaveWritesBuiltRow(data, first, accepts);
    Consumer.SaveWritesBuiltRow(data, second, accepts);
    assert [s1, s2][..1] == [s1];
    assert Consumer.WrittenRows([s1]) == [s1[1].row];
    assert Consumer.WrittenRows([s1, s2]) == [s1[1].row, s2[1].row];
  }
}
