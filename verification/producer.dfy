/** The producer process (app-producer/index.js): each run turns one
    weather observation per city into a reading, and publishes the batch to
    the `weather-data` topic, one JSON message per entry.

    The fetch of each observation is an input: `None` is a failed fetch
    (`fetchWeatherData` returns `null`), `Some(obs)` a parsed response body.
    Broker I/O is left to the `Kafka` interface; the run's result says what
    would be sent.
 */
module Producer {

  import opened Wrappers
  import Js
  import Json
  import Kafka

  // ---------------------------------------------------------------------
  // Data model
  // ---------------------------------------------------------------------

  /** A monitored city; the coordinates are kept as written, since they only
      feed the request URL. */
  datatype City = City(name: string, lat: string, lon: string)

  /** The monitored cities, in the order the run processes them. */
  const Cities: seq<City> := [
    City("New York", "40.7128", "-74.006"),
    City("São Paulo", "-23.5505", "-46.6333"),
    City("London", "51.5074", "-0.1278"),
    City("Cairo", "30.0444", "31.2357"),
    City("Sydney", "-33.8688", "151.2093"),
    City("Tokyo", "35.6895", "139.6917"),
    City("Moscow", "55.7558", "37.6173"),
    City("Mumbai", "19.076", "72.8777"),
    City("Buenos Aires", "-34.6037", "-58.3816"),
    City("Cape Town", "-33.9249", "18.4241")
  ]

  /** One entry of a data point's `weather` list. */
  datatype Condition = Condition(main: string, description: string, icon: string)

  /** One entry of the response's `data` list; times are unix seconds. */
  datatype DataPoint = DataPoint(
    dt: int,
    temp: Json.Float,
    sunrise: int,
    sunset: int,
    feelsLike: Json.Float,
    pressure: Json.Float,
    humidity: Json.Float,
    clouds: Json.Float,
    weather: seq<Condition>)

  /** A parsed weather API response; `data` is None when the body has no
      `data` list. */
  datatype Observation = Observation(timezone: string, data: Option<seq<DataPoint>>)

  /** The canonical reading; the three times are microseconds since the
      epoch. */
  datatype WeatherReading = WeatherReading(
    city: string,
    timezone: string,
    timestamp: int,
    temperature: Json.Float,
    sunrise: int,
    sunset: int,
    feelsLike: Json.Float,
    pressure: Json.Float,
    humidity: Json.Float,
    clouds: Json.Float,
    weatherMain: string,
    weatherDescription: string,
    weatherIcon: string)

  /** What `processWeatherData` returns: the empty list `[]` when there is
      no observation to read, or a reading object. */
  datatype Processed = NoReading | Reading(reading: WeatherReading)

  // ---------------------------------------------------------------------
  // toDBTime
  // ---------------------------------------------------------------------

  /** Unix seconds whose millisecond value a Date can hold. */
  predicate InDateRange(unixSeconds: int) {
    -Js.MaxTimeValue <= unixSeconds * 1000 <= Js.MaxTimeValue
  }

  /** `toDBTime`: seconds times 1000 as a Number, through two Dates, then
      `BigInt(ms) * 1000n`.  It is exact integer arithmetic on the Date
      range and a RangeError outside it, where the Date holds NaN. */
  function ToDBTime(unixSeconds: int): (r: Js.Result<int>)
    ensures r.Success? <==> InDateRange(unixSeconds)
    ensures r.Success? ==> r.value == unixSeconds * 1_000_000 && r.value % 1000 == 0
    ensures r.Failure? ==> r.error == Js.RangeError
  {
    Js.TimeClipOfInteger(unixSeconds * 1000);
    var toISO := Js.NewDate(Js.ToNumber(unixSeconds * 1000));
    var dateObj := Js.CopyDate(toISO);
    var millis :- Js.BigIntOf(dateObj.timeValue);
    Success(millis * 1000)
  }

  /** Later instants never convert to earlier timestamps. */
  lemma ToDBTimeMonotone(a: int, b: int)
    requires a <= b && InDateRange(a) && InDateRange(b)
    ensures ToDBTime(a).value <= ToDBTime(b).value
  {
  }

  // ---------------------------------------------------------------------
  // processWeatherData
  // ---------------------------------------------------------------------

  /** The response has a first data point to read. */
  predicate HasDataPoint(data: Option<Observation>) {
    data.Some? && data.value.data.Some? && |data.value.data.value| > 0
  }

  function FirstDataPoint(data: Option<Observation>): DataPoint
    requires HasDataPoint(data)
  {
    data.value.data.value[0]
  }

  /** `w` is the reading of city `city` built from the first data point of
      `obs` and the first entry of that point's weather list. */
  predicate ReadsFirstEntries(w: WeatherReading, obs: Observation, city: City)
    requires HasDataPoint(Some(obs))
  {
    var p := FirstDataPoint(Some(obs));
    && |p.weather| > 0
    && w.city == city.name
    && w.timezone == obs.timezone
    && w.timestamp == p.dt * 1_000_000
    && w.sunrise == p.sunrise * 1_000_000
    && w.sunset == p.sunset * 1_000_000
    && w.temperature == p.temp
    && w.feelsLike == p.feelsLike
    && w.pressure == p.pressure
    && w.humidity == p.humidity
    && w.clouds == p.clouds
    && w.weatherMain == p.weather[0].main
    && w.weatherDescription == p.weather[0].description
    && w.weatherIcon == p.weather[0].icon
  }

  /** `processWeatherData(data, city)`.  Without a data point it returns the
      empty list.  Otherwise it reads the first data point: a time outside
      the Date range throws a RangeError from `toDBTime` (the times are
      converted in the order timestamp, sunrise, sunset), and an empty
      weather list throws a TypeError when `weather[0].main` is read. */
  function ProcessWeatherData(data: Option<Observation>, city: City): (r: Js.Result<Processed>)
    ensures !HasDataPoint(data) ==> r == Success(NoReading)
    ensures HasDataPoint(data) ==>
      var p := FirstDataPoint(data);
      && (r.Success? <==> InDateRange(p.dt) && InDateRange(p.sunrise) && InDateRange(p.sunset) && |p.weather| > 0)
      && (r.Failure? ==> r.error == if InDateRange(p.dt) && InDateRange(p.sunrise) && InDateRange(p.sunset)
                                   then Js.TypeError else Js.RangeError)
      && (r.Success? ==> r.value.Reading? && ReadsFirstEntries(r.value.reading, data.value, city))
  {
    if data.None? || data.value.data.None? || |data.value.data.value| == 0 then
      Success(NoReading)
    else
      var current := data.value.data.value[0];
      var timestamp :- ToDBTime(current.dt);
      var sunrise :- ToDBTime(current.sunrise);
      var sunset :- ToDBTime(current.sunset);
      if |current.weather| == 0 then
        Failure(Js.TypeError)
      else
        var condition := current.weather[0];
        Success(Reading(WeatherReading(
          city.name, data.value.timezone, timestamp, current.temp, sunrise, sunset,
          current.feelsLike, current.pressure, current.humidity, current.clouds,
          condition.main, condition.description, condition.icon)))
  }

  /** Data points after the first, and weather entries after the first, do
      not influence the result. */
  lemma OnlyFirstEntriesMatter(a: Observation, b: Observation, city: City)
    requires HasDataPoint(Some(a)) && HasDataPoint(Some(b))
    requires a.timezone == b.timezone
    requires var p, q := FirstDataPoint(Some(a)), FirstDataPoint(Some(b));
      && p.(weather := []) == q.(weather := [])
      && (|p.weather| == 0 <==> |q.weather| == 0)
      && (|p.weather| > 0 ==> p.weather[0] == q.weather[0])
    ensures ProcessWeatherData(Some(a), city) == ProcessWeatherData(Some(b), city)
  {
    var p, q := FirstDataPoint(Some(a)), FirstDataPoint(Some(b));
    assert p.dt == q.dt && p.sunrise == q.sunrise && p.sunset == q.sunset;
  }

  // ---------------------------------------------------------------------
  // The reading as a JavaScript value, and the replacer
  // ---------------------------------------------------------------------

  /** The keys of a reading object, in insertion order. */
  const ReadingKeys: seq<string> := [
    "city", "timezone", "timestamp", "temperature", "sunrise", "sunset", "feels_like",
    "pressure", "humidity", "clouds", "weather_main", "weather_description", "weather_icon"
  ]

  /** The positions of the three time fields among `ReadingKeys`. */
  predicate IsTimeField(i: nat) {
    i == 2 || i == 4 || i == 5
  }

  /** A time field: a BigInt in the reading object, its decimal string on
      the wire. */
  function TimeValue(t: int, onWire: bool): Json.Value {
    if onWire then Json.Str(Js.DecimalString(t)) else Json.BigInt(t)
  }

  /** The value of the non-time field at position `i` of `ReadingKeys`. */
  function ScalarField(w: WeatherReading, i: nat): (v: Json.Value)
    requires i < |ReadingKeys| && !IsTimeField(i)
    ensures v.Str? || v.Num?
  {
    match i
    case 0 => Json.Str(w.city)
    case 1 => Json.Str(w.timezone)
    case 3 => Json.Num(w.temperature)
    case 6 => Json.Num(w.feelsLike)
    case 7 => Json.Num(w.pressure)
    case 8 => Json.Num(w.humidity)
    case 9 => Json.Num(w.clouds)
    case 10 => Json.Str(w.weatherMain)
    case 11 => Json.Str(w.weatherDescription)
    case _ => Json.Str(w.weatherIcon)
  }

  /** The value of the field at position `i` of `ReadingKeys`. */
  function ReadingField(w: WeatherReading, i: nat, onWire: bool): Json.Value
    requires i < |ReadingKeys|
  {
    if i == 2 then TimeValue(w.timestamp, onWire)
    else if i == 4 then TimeValue(w.sunrise, onWire)
    else if i == 5 then TimeValue(w.sunset, onWire)
    else ScalarField(w, i)
  }

  /** The values of a reading object, in the order of `ReadingKeys`. */
  function ReadingFields(w: WeatherReading, onWire: bool): (fs: seq<Json.Value>)
    ensures |fs| == |ReadingKeys|
    ensures forall i :: 0 <= i < |fs| ==> fs[i] == ReadingField(w, i, onWire)
  {
    seq(|ReadingKeys|, i requires 0 <= i < |ReadingKeys| => ReadingField(w, i, onWire))
  }

  /** A reading as an object: the reading keys in order, each with its
      field. */
  function ReadingObject(w: WeatherReading, onWire: bool): (v: Json.Value)
    ensures v.Obj? && |v.members| == |ReadingKeys|
    ensures forall i :: 0 <= i < |ReadingKeys| ==>
      v.members[i].key == ReadingKeys[i] && v.members[i].value == ReadingField(w, i, onWire)
  {
    Json.Obj(Json.Zip(ReadingKeys, ReadingFields(w, onWire)))
  }

  /** The JavaScript value `processWeatherData` returns: `[]`, or an object
      with the reading keys in order whose three times are BigInts. */
  function ToValue(p: Processed): (v: Json.Value)
    ensures !v.Null?
    ensures p.NoReading? ==> v == Json.Arr([])
    ensures p.Reading? ==>
      && v.Obj? && |v.members| == |ReadingKeys|
      && (forall i :: 0 <= i < |ReadingKeys| ==> v.members[i].key == ReadingKeys[i])
      && v.members[2].value == Json.BigInt(p.reading.timestamp)
      && v.members[4].value == Json.BigInt(p.reading.sunrise)
      && v.members[5].value == Json.BigInt(p.reading.sunset)
    ensures p.Reading? ==>
      forall i :: 0 <= i < |ReadingKeys| ==> v.members[i].value == ReadingField(p.reading, i, false)
  {
    match p
    case NoReading => Json.Arr([])
    case Reading(w) => ReadingObject(w, false)
  }

  /** The replacer `sendToKafka` hands to `JSON.stringify`, applied to every
      value it visits: a BigInt becomes its decimal string, anything else is
      left as it is. */
  function Replace(v: Json.Value): (r: Json.Value)
    ensures Json.NoBigInt(r)
    ensures Json.NoBigInt(v) ==> r == v
    ensures v.BigInt? ==> r == Json.Str(Js.DecimalString(v.i))
    ensures v.Arr? ==> r.Arr? && |r.items| == |v.items|
    ensures v.Obj? ==> r.Obj? && |r.members| == |v.members|
    decreases v, 1
  {
    match v
    case BigInt(i) => Json.Str(Js.DecimalString(i))
    case Arr(items) => Json.Arr(ReplaceItems(items))
    case Obj(ms) => Json.Obj(ReplaceMembers(ms))
    case _ => v
  }

  function ReplaceItems(items: seq<Json.Value>): (r: seq<Json.Value>)
    ensures |r| == |items|
    ensures forall i :: 0 <= i < |r| ==> Json.NoBigInt(r[i]) && r[i] == Replace(items[i])
    ensures (forall i :: 0 <= i < |items| ==> Json.NoBigInt(items[i])) ==> r == items
    decreases items, 0
  {
    if |items| == 0 then [] else [Replace(items[0])] + ReplaceItems(items[1..])
  }

  function ReplaceMembers(ms: seq<Json.Member>): (r: seq<Json.Member>)
    ensures |r| == |ms|
    ensures forall i :: 0 <= i < |r| ==> r[i] == Json.Member(ms[i].key, Replace(ms[i].value))
    ensures forall i :: 0 <= i < |r| ==> Json.NoBigInt(r[i].value)
    ensures (forall i :: 0 <= i < |ms| ==> Json.NoBigInt(ms[i].value)) ==> r == ms
    decreases ms, 0
  {
    if |ms| == 0 then []
    else [Json.Member(ms[0].key, Replace(ms[0].value))] + ReplaceMembers(ms[1..])
  }

  /** `JSON.stringify(item, replacer)`: never throws, and `JSON.parse` reads
      back the replaced value. */
  function Serialize(v: Json.Value): (text: string)
    ensures Json.Parse(text) == Success(Replace(v))
  {
    Json.Stringify(Replace(v)).value
  }

  /** A reading on the wire: the reading object with its three times as
      decimal strings. */
  function WireValue(w: WeatherReading): Json.Value {
    Json.Obj(Json.Zip(ReadingKeys, ReadingFields(w, true)))
  }

  /** The replacer turns each in-memory field of a reading into its wire
      form. */
  lemma ReplaceReadingFields(w: WeatherReading)
    ensures forall i :: 0 <= i < |ReadingKeys| ==> Replace(ReadingFields(w, false)[i]) == ReadingFields(w, true)[i]
  {
    var inMemory, onWire := ReadingFields(w, false), ReadingFields(w, true);
    forall i | 0 <= i < |ReadingKeys|
      ensures Replace(inMemory[i]) == onWire[i]
    {
      if !IsTimeField(i) {
        assert inMemory[i] == ScalarField(w, i) == onWire[i];
      }
    }
  }

  /** The message for a reading decodes to the reading object with its
      times as decimal strings and everything else unchanged; the message
      for the empty list decodes to the empty list. */
  lemma MessageDecodes(p: Processed)
    ensures p.Reading? ==> Json.Parse(Serialize(ToValue(p))) == Success(WireValue(p.reading))
    ensures p.NoReading? ==> Json.Parse(Serialize(ToValue(p))) == Success(Json.Arr([]))
  {
    if p.Reading? {
      var inMemory, onWire := ReadingFields(p.reading, false), ReadingFields(p.reading, true);
      var ms := Json.Zip(ReadingKeys, inMemory);
      var r := ReplaceMembers(ms);
      ReplaceReadingFields(p.reading);
      assert r == Json.Zip(ReadingKeys, onWire);
      assert Replace(ToValue(p)) == Json.Obj(r);
    }
  }

  // ---------------------------------------------------------------------
  // generateWeatherData and sendToKafka
  // ---------------------------------------------------------------------

  /** What `processWeatherData` gives for each city, in city order. */
  function Outcomes(cities: seq<City>, fetched: seq<Option<Observation>>): (rs: seq<Js.Result<Processed>>)
    requires |fetched| == |cities|
    ensures |rs| == |cities|
    ensures forall i :: 0 <= i < |cities| ==> rs[i] == ProcessWeatherData(fetched[i], cities[i])
  {
    if |cities| == 0 then [] else [ProcessWeatherData(fetched[0], cities[0])] + Outcomes(cities[1..], fetched[1..])
  }

  /** `results.map((data, index) => processWeatherData(data, cities[index]))`. */
  function ProcessAll(cities: seq<City>, fetched: seq<Option<Observation>>): (r: Js.Result<seq<Processed>>)
    requires |fetched| == |cities|
    ensures r.Success? <==> forall i :: 0 <= i < |cities| ==> ProcessWeatherData(fetched[i], cities[i]).Success?
    ensures r.Success? ==>
      && |r.value| == |cities|
      && forall i :: 0 <= i < |cities| ==> ProcessWeatherData(fetched[i], cities[i]) == Success(r.value[i])
  {
    Js.Collect(Outcomes(cities, fetched))
  }

  /** The first city whose processing throws aborts the map with its
      exception. */
  lemma ProcessAllFirstFailure(cities: seq<City>, fetched: seq<Option<Observation>>, k: nat)
    requires |fetched| == |cities| && k < |cities|
    requires ProcessWeatherData(fetched[k], cities[k]).Failure?
    requires forall i :: 0 <= i < k ==> ProcessWeatherData(fetched[i], cities[i]).Success?
    ensures ProcessAll(cities, fetched) == Failure(ProcessWeatherData(fetched[k], cities[k]).error)
  {
    Js.CollectFirstFailure(Outcomes(cities, fetched), k);
  }

  /** `.filter((data) => data !== null)`: every entry that is not `null`
      is kept, as often as it occurs, and nothing else; `KeepNonNullAppend`
      adds that the kept entries stay in order. */
  function KeepNonNull(vs: seq<Json.Value>): (r: seq<Json.Value>)
    ensures multiset(r) == multiset(vs)[Json.Null := 0]
    ensures forall i :: 0 <= i < |r| ==> !r[i].Null?
    ensures (forall i :: 0 <= i < |vs| ==> !vs[i].Null?) ==> r == vs
  {
    if |vs| == 0 then []
    else
      assert vs == [vs[0]] + vs[1..];
      (if vs[0].Null? then [] else [vs[0]]) + KeepNonNull(vs[1..])
  }

  /** Filtering a concatenation filters each part, in order: with the
      one-entry cases this fixes the result as the input with its `null`
      entries removed, order kept. */
  lemma {:induction false} KeepNonNullAppend(a: seq<Json.Value>, b: seq<Json.Value>)
    ensures KeepNonNull(a + b) == KeepNonNull(a) + KeepNonNull(b)
    ensures KeepNonNull([Json.Null]) == []
    ensures forall v: Json.Value :: !v.Null? ==> KeepNonNull([v]) == [v]
    decreases |a|
  {
    if |a| > 0 {
      assert (a + b)[1..] == a[1..] + b;
      KeepNonNullAppend(a[1..], b);
    } else {
      assert a + b == b;
    }
    assert [Json.Null][1..] == [];
    forall v: Json.Value | !v.Null?
      ensures KeepNonNull([v]) == [v]
    {
      assert [v][1..] == [];
    }
  }

  /** The messages `sendToKafka` builds, one per batch entry, in order; a
      failure is an exception caught by `sendToKafka`. */
  function EncodeAll(batch: seq<Json.Value>): (r: seq<Kafka.Message>)
    ensures |r| == |batch|
    ensures forall i :: 0 <= i < |batch| ==> r[i] == Kafka.Message(Some(Serialize(batch[i])))
  {
    if |batch| == 0 then [] else [Kafka.Message(Some(Serialize(batch[0])))] + EncodeAll(batch[1..])
  }

  /** `sendToKafka(batch)`: one send to the weather topic with one message
      per batch entry, in batch order, each decoding to the entry with its
      BigInts replaced.  Broker failures, which `sendToKafka` catches and
      logs, are not part of this model. */
  function SendToKafka(batch: seq<Json.Value>): (r: Kafka.SendRequest)
    ensures r.topic == Kafka.WeatherTopic
    ensures |r.messages| == |batch|
    ensures forall i :: 0 <= i < |batch| ==>
      r.messages[i].value.Some? && Json.Parse(r.messages[i].value.value) == Success(Replace(batch[i]))
  {
    Kafka.SendRequest(Kafka.WeatherTopic, EncodeAll(batch))
  }

  /** The outcome of one run: aborted by an uncaught exception, or the
      processed batch and the send it triggered, if any. */
  datatype Run = Aborted(error: Js.Exception) | Completed(processed: seq<Json.Value>, sent: Option<Kafka.SendRequest>)

  /** `generateWeatherData` after the fetches have settled.  The batch holds
      one entry per city, in city order: a failed or empty fetch gives the
      empty list, never `null`, so the filter removes nothing.  A city whose
      data point is unusable aborts the whole run and nothing is sent. */
  function GenerateWeatherData(cities: seq<City>, fetched: seq<Option<Observation>>): (run: Run)
    requires |fetched| == |cities|
    ensures run.Aborted? <==> exists i :: 0 <= i < |cities| && ProcessWeatherData(fetched[i], cities[i]).Failure?
    ensures run.Completed? ==>
      && |run.processed| == |cities|
      && (forall i :: 0 <= i < |cities| ==>
            ProcessWeatherData(fetched[i], cities[i]).Success?
            && run.processed[i] == ToValue(ProcessWeatherData(fetched[i], cities[i]).value))
      && (run.sent.Some? <==> |cities| > 0)
      && (run.sent.Some? ==> run.sent.value == SendToKafka(run.processed))
  {
    match ProcessAll(cities, fetched)
    case Failure(e) => Aborted(e)
    case Success(results) => Publish(results)
  }

  /** The filter and the send once every city has been processed: no
      processed entry is `null`, so the batch is the entries themselves, and
      an empty batch is not sent. */
  function Publish(results: seq<Processed>): (run: Run)
    ensures run.Completed? && |run.processed| == |results|
    ensures forall i :: 0 <= i < |results| ==> run.processed[i] == ToValue(results[i])
    ensures run.sent.Some? <==> |results| > 0
    ensures run.sent.Some? ==> run.sent.value == SendToKafka(run.processed)
  {
    var values := seq(|results|, i requires 0 <= i < |results| => ToValue(results[i]));
    var processed := KeepNonNull(values);
    Completed(processed, if |processed| > 0 then Some(SendToKafka(processed)) else None)
  }

  /** A completed run over the configured cities sends one message per
      city. */
  lemma RunSendsOneMessagePerCity(fetched: seq<Option<Observation>>)
    requires |fetched| == |Cities|
    requires GenerateWeatherData(Cities, fetched).Completed?
    ensures GenerateWeatherData(Cities, fetched).sent.Some?
    ensures |GenerateWeatherData(Cities, fetched).sent.value.messages| == 10
  {
  }
}
