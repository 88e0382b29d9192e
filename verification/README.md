# Weather ingestion pipeline: a Dafny model

This project models the two processes of a small weather ingestion pipeline.

- **The producer** fetches one observation per city every fifteen minutes. It turns the first data point of each observation into a reading whose three times are BigInt microseconds. It then publishes the batch to the `weather-data` topic as one JSON message per entry. Each BigInt is written as its decimal string, through a replacer passed to `JSON.stringify`.
- **The consumer** decodes each message. It writes the message as one row of the `weather_data` table, through a fresh ingestion session on which flush and close are always attempted. The three time columns are read back with `parseInt`, and the row is stamped with the ingest clock.

## Modules

| file | module | what it holds |
|---|---|---|
| `wrappers.dfy` | `Wrappers` | `Option` and `Result` |
| `js.dfy` | `Js` | JavaScript Numbers, limited to the integer-valued ones the pipeline computes with. `ToNumber` rounds an integer to the nearest binary64 double, ties to even, and overflows to infinity. Also here: Date `TimeClip`, `BigInt(x)`, `BigInt.prototype.toString`, `parseInt` (ECMA-262, section 19.2.5), and a run of calls that may throw, where the first exception escapes. |
| `json.dfy` | `Json` | JavaScript values as `JSON.stringify` sees them: the JSON kinds plus BigInt. Also: property reads, ToString (which throws on an object with its own `toString`), and `JSON.stringify`/`JSON.parse` (RFC 8259; ECMA-262, section 25.5), with the round trip `Parse(Stringify(v)) == v` proved. |
| `kafka.dfy` | `Kafka` | The topic name, a message, and one send request. |
| `producer.dfy` | `Producer` | `toDBTime`, `processWeatherData`, the reading as an object, the BigInt replacer, `sendToKafka`, and `generateWeatherData`'s map, filter and send. |
| `consumer.dfy` | `Consumer` | The table schema, the row `saveToQuestDB` builds, its session lifecycle, `processMessage`, and the `eachMessage` loop. |
| `pipeline.dfy` | `Pipeline` | Properties that span both processes. Example: an observation reaches the table as the row it should become, and its times survive the trip exactly. |

Inputs the code gets from outside become parameters:
- the fetched observations (`None` is a failed fetch);
- `Date.now()` at each save;
- the database client's verdict on the value of each builder call (`accepts`).

Some behaviour of the code is worth stating plainly, because the model follows it:

- **Empty weather list.** Reading `current.weather[0].main` throws a TypeError inside the `map`. That aborts the whole run, and nothing is sent (`Producer.GenerateWeatherData`).
- **Failed fetch.** A failed fetch gives `[]`, not `null`. The `null` filter therefore removes nothing, and the empty list is published like any reading (`Producer.GenerateWeatherData`, `Pipeline.EmptyReadingReachesTable`).
- **Undecodable message.** `JSON.parse` throws outside any `try`, so the exception escapes the handler. The model's loop stops at that message (`Consumer.RunConsumer`).
- **Designated timestamp.** The row's designated timestamp is `Date.now()` in milliseconds. The reading's own time is only an ordinary timestamp column (`Consumer.BuildRow`).
- **Microsecond precision.** The consumer reads the times back through `parseInt`, which gives a double. Every whole second up to 576,460,752,304 s from the epoch comes back exact. The first second that rounds is 576,460,752,305 s, whose microsecond count comes back 64 too low (`Pipeline.TimeSurvivesTheWire`, `Pipeline.BoundaryTimeExact`, `Pipeline.FarFutureTimeRounds`).
- **A field whose ToString throws.** `parseInt` converts its argument with ToString. For a decoded object with its own `toString` key that is a TypeError, which `saveToQuestDB` catches, so no row is written (`Consumer.ThrowingTimestampIsCaught`).

## Model

| member | source | states |
|---|---|---|
| Js.TimeClipOfInteger | app-producer/index.js:64-65 | A Date built from an integer millisecond count holds exactly that count inside the Date range and NaN outside it. Rounding to a double never carries an out-of-range count into the range. |
| Js.BigIntOf | app-producer/index.js:66 | `BigInt(x)` succeeds exactly on finite values and returns the same integer; NaN and the infinities raise a RangeError. |
| Js.ToNumberExact | app-consumer/index.js:38 | Every integer of magnitude at most 2^53 is a double: converting it to a Number loses nothing. |
| Js.ToNumberFirstInexact | app-consumer/index.js:38 | The 2^53 bound is tight: 2^53 + 1 becomes 2^53. |
| Js.ToNumberExactMultiple | app-consumer/index.js:38 | Multiples of 64 below 2^59 in magnitude are doubles too. |
| Js.ParseIntOfDecimal | app-consumer/index.js:38 | `parseInt` of an integer's decimal text, followed by any text that does not start with a letter or digit, is that integer rounded to a double. |
| Js.ParseIntRoundTrip | app-consumer/index.js:38 | Decimal text and then `parseInt` gives back every integer of magnitude at most 2^53. |
| Js.ParseIntRoundTripMultiple | app-consumer/index.js:38 | Decimal text and then `parseInt` gives back every multiple of 64 of magnitude below 2^59. |
| Js.ParseIntSkipsWhiteSpace | app-consumer/index.js:38 | Leading white space does not change what `parseInt` reads. |
| Js.ParseIntOfUndefined | app-consumer/index.js:38 | A missing field reads as `undefined`, and `parseInt` of it is NaN. |
| Json.Lookup | app-consumer/index.js:36-47 | A property read finds a value exactly when some member has the key, and the value found is one written under that key. |
| Json.LookupLastWins | app-consumer/index.js:36-47 | With a repeated key, the last member wins. |
| Json.LookupZip | app-producer/index.js:72-86 | In an object literal, a key that is not repeated later reads back the value written with it. |
| Json.LookupOtherKey | app-consumer/index.js:36-47 | Adding a member under another key does not change a read. |
| Json.Property | app-consumer/index.js:36-47 | Reading a field of `null` is a TypeError, and only of `null`. Reading a field of an object gives its last member with that key, or `undefined` when there is none. Any other value has no fields. |
| Json.Stringify | app-producer/index.js:93-95 | `JSON.stringify` fails with a TypeError exactly when the value holds a BigInt. Otherwise `JSON.parse` reads its text back as the same value. |
| Json.ParseValuePrint | app-producer/index.js:93-95 | The printed form of any BigInt-free value parses back to that value, whatever delimiter follows it. |
| Json.ValueToString | app-consumer/index.js:38-41 | ToString throws a TypeError exactly when it reaches an object with its own `toString` key, directly or as an array element. Strings and BigInts convert to their own text, and any other object to "[object Object]". |
| Json.Parse | app-consumer/index.js:59 | `JSON.parse` either yields a BigInt-free value or raises a SyntaxError. |
| Producer.ToDBTime | app-producer/index.js:63-70 | `toDBTime` succeeds exactly on the Date range, and then gives seconds times 1,000,000 exactly, a whole number of milliseconds. Outside the range it raises a RangeError. |
| Producer.ToDBTimeMonotone | app-producer/index.js:63-70 | Later instants never convert to earlier timestamps. |
| Producer.ProcessWeatherData | app-producer/index.js:55-87 | No data point gives the empty list. Otherwise the call succeeds exactly when the three times are in the Date range and the weather list is non-empty. A bad time is a RangeError, which wins over the TypeError of an empty weather list. On success the reading carries the city name, the timezone, the first data point's fields and times in microseconds, and the first weather entry. |
| Producer.OnlyFirstEntriesMatter | app-producer/index.js:61 | Data points after the first, and weather entries after the first, never change the result. |
| Producer.ToValue | app-producer/index.js:72-86 | A reading becomes an object with the thirteen keys in insertion order. Each key holds the matching field of the reading, and the three times are BigInts. The empty case becomes `[]`. Neither is `null`. |
| Producer.Replace | app-producer/index.js:93-95 | The replacer leaves no BigInt behind. It turns a BigInt into its decimal string and leaves BigInt-free values unchanged. |
| Producer.Serialize | app-producer/index.js:93-95 | Stringifying with the replacer never throws, and `JSON.parse` reads back the replaced value. |
| Producer.MessageDecodes | app-producer/index.js:92-96 | A reading's message decodes to the reading object with its times as decimal strings and every other field unchanged. The empty list decodes to the empty list. |
| Js.Collect | app-producer/index.js:114-115 | Calls made in order, each of which may throw, succeed exactly when every call does, and then keep every result in order. On failure, the exception is that of some call all of whose predecessors succeeded. |
| Js.CollectFirstFailure | app-producer/index.js:114-115 | The exception that escapes is the first one in order. |
| Producer.ProcessAll | app-producer/index.js:114-115 | Mapping `processWeatherData` over the cities succeeds exactly when it succeeds for every city, and then gives each city's result at its index. |
| Producer.ProcessAllFirstFailure | app-producer/index.js:114-115 | The first city whose processing throws decides the run's exception. |
| Producer.KeepNonNull | app-producer/index.js:116 | The filter keeps every entry that is not `null`, as often as it occurs, and nothing else. On a list with no `null` it keeps everything. |
| Producer.KeepNonNullAppend | app-producer/index.js:116 | Filtering a concatenation filters each part in order. A single `null` is dropped and any other single entry is kept. So the result is the input with its `null` entries removed, in order. |
| Producer.SendToKafka | app-producer/index.js:89-106 | One send to the `weather-data` topic, with one message per batch entry in batch order. Each message decodes to its entry with BigInts replaced. |
| Producer.Publish | app-producer/index.js:114-121 | Once every city is processed, the batch is the processed entries themselves, and it is sent exactly when it is non-empty. |
| Producer.GenerateWeatherData | app-producer/index.js:108-122 | The run aborts exactly when some city's processing throws. Otherwise the batch holds one entry per city in city order, and it is sent as one request exactly when there are cities. |
| Producer.RunSendsOneMessagePerCity | app-producer/index.js:11-22 | A completed run over the ten configured cities sends ten messages. |
| Consumer.SchemaDropsClouds | app-consumer/index.js:34-48 | No column reads or is named after `clouds`. |
| Consumer.SchemaRenamesOnlyDescription | app-consumer/index.js:46 | Every column is named after the field it reads, except `weather_desc`, which reads `weather_description`. |
| Consumer.CellOf | app-consumer/index.js:36-47 | Symbol, float and string columns pass the field on as read, and never throw. A timestamp column throws a TypeError exactly when the field's ToString throws. It gets NaN for an `undefined` field. |
| Consumer.CellOfDecimalTime | app-consumer/index.js:38-41 | A timestamp column holding the decimal text of an integer within 2^53 gets exactly that integer. |
| Consumer.BuildRow | app-consumer/index.js:34-48 | The arguments of the builder calls describe a row exactly when none of them throws. `null` data always throws, and an argument throws only a TypeError. The row goes to `weather_data`, is stamped with the ingest clock, and its column `i` is built from the field that column reads. |
| Consumer.SaveToQuestDB | app-consumer/index.js:29-56 | Every save opens, then writes or catches, then flushes and closes. It writes exactly when every builder call goes through, that is, when each argument is computed and the client takes it. `null` data is a caught TypeError. |
| Consumer.SaveCatchesFirstFailure | app-consumer/index.js:34-51 | The exception caught is the first one in column order: a TypeError when that column's argument threw, and the client's error when the client refused the value. |
| Consumer.SaveWritesBuiltRow | app-consumer/index.js:34-48 | A written row is the row the builder calls' arguments describe. |
| Consumer.ThrowingTimestampIsCaught | app-consumer/index.js:36-38 | Suppose the client takes the city and the time zone, and the `timestamp` field is an object with its own `toString`. Then the caught exception is the TypeError from `parseInt`. |
| Consumer.OwnToStringIsNotWritten | app-consumer/index.js:38 | The decoded value of the message `{"city":"x","timezone":"y","timestamp":{"toString":0}}` never writes a row, whatever the client does. |
| Consumer.ProcessMessage | app-consumer/index.js:58-62 | A message without a value is a TypeError, and undecodable text is a SyntaxError; both escape. Decodable text is saved as decoded. |
| Consumer.AtMostOneRowPerSession | app-consumer/index.js:29-56 | Sessions write at most one row each, and exactly one each when every session writes. |
| Consumer.WrittenRowsAppend | app-consumer/index.js:68-72 | Rows keep the order of the sessions that wrote them. |
| Consumer.RunConsumer | app-consumer/index.js:64-73 | Messages are handled in order, one session per message. The loop stops exactly at the first message whose handler throws, with that exception. |
| Consumer.RunWritesAtMostOneRowPerMessage | app-consumer/index.js:68-72 | Every session the loop ran is well formed, and the loop writes at most one row per message handled. |
| Pipeline.SchemaReadsReadingKeys | app-consumer/index.js:36-47 | The consumer's columns read exactly the producer's keys other than `clouds`, in the producer's order. |
| Pipeline.ReadingKeysDistinct | app-producer/index.js:72-86 | No key of a reading object repeats. |
| Pipeline.WireField | app-consumer/index.js:36-47 | Reading a key of a decoded reading gives the wire value the producer wrote under it. |
| Pipeline.RowOfReading | app-consumer/index.js:34-48 | The consumer builds, from a decoded reading, exactly the row whose column `i` holds the producer's value for the key that column reads. |
| Pipeline.WireCellsDefined | app-consumer/index.js:36-47 | Every field of a decoded reading is a string or a number, so no column's argument throws. |
| Pipeline.TimeSurvivesTheWire | app-consumer/index.js:38 | A whole-second time within 576,460,752,303 s of the epoch converts to its decimal text, and `parseInt` reads that text back as exactly its microsecond count. |
| Pipeline.MicrosecondsOfStorable | app-producer/index.js:66 | Whole seconds in microseconds are multiples of 64, and within that range they stay below 2^59. |
| Pipeline.BoundaryTimeExact | app-consumer/index.js:38 | 576,460,752,304 s, one past that range, still comes back exact. |
| Pipeline.FarFutureTimeRounds | app-consumer/index.js:38 | The next second, 576,460,752,305 s, is inside the Date range, but its microsecond count comes back 64 too low. |
| Pipeline.ReadingReachesTable | app-consumer/index.js:58-62 | A reading's message is handled as a save of its wire value. |
| Pipeline.ReadingTimesReachTable | app-consumer/index.js:38-41 | The row a reading becomes is stamped with the ingest clock. Its three time columns hold the data point's times in microseconds whenever those are storable exactly. |
| Pipeline.ObservationReachesTable | app-producer/index.js:55-87 | End to end: an observation the producer turns into a reading is handled as a save of that reading. The row it becomes has the reading's values, the ingest clock, and the data point's times. |
| Pipeline.EmptyReadingReachesTable | app-producer/index.js:56-59 | The `[]` published for a city without data is handed to `saveToQuestDB`. Its builder calls get every field `undefined` and every time column NaN. Whether a row is written is left to the client. |
| Pipeline.RedeliveryWritesTwice | app-consumer/index.js:68-72 | There is no deduplication: a message handled twice writes two rows with the same columns. |

## Left out

- The HTTP servers and health routes, `dotenv`, the cron schedule, and the initial run: these are process plumbing with no data logic.
- `fetchWeatherData`'s request, its URL and its `Date.now()`: network I/O. Its result enters as `Option<Observation>`, where `None` is the `null` it returns on any failure.
- The producer's broker client (`connect`, `send`) and the consumer's (`connect`, `subscribe`, offsets, group membership, retries and restarts after a handler throws): broker I/O.
- Producer.SendToKafka: it states the request `sendToKafka` builds, not whether the broker accepts it. `sendToKafka` catches and logs every broker failure, so a failure never reaches the run's result.
- Consumer.RunConsumer: it stops at the first exception. It does not model the client's retry and restart, which would deliver the same message again; `Pipeline.RedeliveryWritesTwice` states what a second delivery writes.
- The time-series client's transport, its flush and close failures, and its own value checks. Those checks enter as the parameter `accepts`, one verdict per builder call, and a refused value is a caught `ClientError`. The `table` and `at` calls are taken as accepted. Their arguments are the constant table name and `Date.now()`.
- Floating-point values: temperatures, pressure and the other float fields are carried as their JSON number text and never computed with. The ToString of a number field is that text, not JavaScript's shortest round-trip form. This only matters if a time field were a number, and on the wire it never is.
- `console` output.
- The data point's fields are typed. The model does not follow a response whose individual fields are missing or of the wrong type, beyond a missing `data` list, an empty one, and an empty `weather` list.
- City coordinates are kept as text, because they only feed the request URL.
- Json.Parse: it raises a SyntaxError on a `\uXXXX` escape of a lone surrogate, and on a high-surrogate escape not followed by a low-surrogate escape. `JSON.parse` accepts both and keeps the lone code unit. A Dafny string cannot hold a lone surrogate, so such a message stops the model's consumer loop where the source would save it.
- Js.ParseInt: it values all digits exactly. ECMA-262 lets an implementation approximate after the 20th significant digit; the times involved have at most 19.
- Negative zero is not distinguished from zero.
