# Climate reporter: sample, filter, publish on change

This project models the core of a small Go telemetry reporter for a
single-board computer. Every few seconds it reads a temperature/humidity
sensor and classifies the reading as valid or failed. When the reading
differs from the stored baseline, it is checked against a plausibility
filter. If it passes, it is published as a payload `{thing_id, temperature,
humidity}` to a message broker, and the stamped payload becomes the baseline.
If it is refused, the unstamped reading becomes the baseline.

The repository holds the program twice, once per sensor chip:

- `weather.go` for the AM2301 (module `Am2301Reporter`). A zero value on
  either channel, or a driver error, is a failed read. Its filter refuses a
  zero new temperature.
- `main.go` for the DHT22 (module `Dht22Reporter`). `-1` on either channel
  is a failed read, and the driver error is thrown away. Its filter has no
  zero guard.

Module `Telemetry` holds the `Data` payload and the serial number trim of
`getBoardSN`, which both Go files declare identically. It also holds the
model's own types:

- `DriverReading` stands for the temperature, humidity and error triple
  that `dht.ReadDHTxx` returns (weather.go:33, main.go:33).
- `Option` is the publish decision.
- `StepResult` and `TraceResult` are the results of one tick and of a run
  of ticks.

Each variant module has the following parts:

- `GetSensorData`: the classifier of the driver's result. It returns
  `NoData` (Go's `Data{}`) for a failed read.
- `CmpSensorData`: the plausibility filter.
- `Step`: one iteration of the `main` loop as a pure function.
- `Trace`: the loop over a finite sequence of driver results.
- `Reporter`: a class with the serial number as a constant and the baseline
  `thingData` as its one mutable field. `Tick` runs the loop body in place.
  `Run` runs it over a sequence with a `while` loop. Both are proved equal
  to `Step` and `Trace`.

## Behaviour worth knowing

The lemmas state how the loop behaves, including the surprising parts:

- A refused spike becomes the baseline (weather.go:84, main.go:79).
- A failed read is not skipped. Unless the baseline is already `Data{}`,
  the failure marker `Data{}` is compared like any other sample and replaces
  the baseline (weather.go:77-84, main.go:73-79). In the DHT22 build it is
  stamped with the serial number first when it passes the filter. See
  `Am2301Reporter.FailedReadResetsBaseline`.
- Only the AM2301 filter requires a non-zero new temperature. The DHT22
  filter has no zero guard. So a failed read is published as
  `{serial, 0, 0}` when the baseline is not `Data{}` and both its values are
  at least -5 (main.go:45-46). See `Dht22Reporter.FailedReadPublished` and
  `Dht22Reporter.PersistentFailurePublishedEveryTick`.
- When the baseline is `Data{}`, a failed read equals it and the tick does
  nothing (main.go:73). This happens on a failed first tick after start-up,
  and on a repeated failure after an unpublished one. See
  `Dht22Reporter.FailedReadOnEmptyBaselineIsNoOp`.
- The published payload is stamped with the serial number, and that stamped
  value is the one stored (weather.go:79-84, main.go:75-79). A fresh sample
  has an empty thing id. So when the serial number is non-empty, the stored
  baseline and the next identical sample never compare equal, and a stable
  reading is published again on every tick once it has been published once.
  See `StableReadingRepublished` in both modules. When the serial number is
  empty, which is what `getBoardSN` returns if the file cannot be read, the
  repeat is a no-op.
- From start-up, a stable reading with either channel above 5 is never
  published. It is a spike against the initial zero baseline, it is stored
  unstamped, and every repeat is then a no-op. See
  `StartupReadingNeverPublishedWhileStable` in both modules.

`SpikeStepFailureScenario` in each module follows four ticks from start-up:
22/45, then 23/46, then a failed read, then 23/46 again.

## Model

| member | source | states |
|---|---|---|
| `Telemetry.TrimNulSuffix` | weather.go:28 | the result is a prefix of the input, at most one character shorter, and shorter exactly when the input ends in NUL (main.go:28 is the same line) |
| `Telemetry.TrimUndoesOneNul` | main.go:28 | trimming `s + "\0"` gives back `s`, and trimming `s + "\0\0"` gives `s + "\0"`: only one NUL is removed |
| `Am2301Reporter.GetSensorData` | weather.go:32-42 | the result is `Data{}` exactly when the driver reported an error, a zero temperature or a zero humidity; otherwise it holds the driver's temperature and humidity and an empty thing id |
| `Am2301Reporter.CmpSensorData` | weather.go:44-48 | refused when the new temperature is 0, or when either channel rises by more than 5; accepted when the new temperature is non-zero and neither channel rises by more than 5, however far it falls |
| `Am2301Reporter.Step` | weather.go:76-85 | a sample equal to the baseline on all three fields changes nothing; a payload is published exactly when the sample differs and passes the filter; the published payload is the sample stamped with the serial number and is also the new baseline; a refused changed sample becomes the baseline unstamped; the baseline always carries the latest sample's temperature and humidity |
| `Am2301Reporter.Trace` | weather.go:74-87 | one publish decision per reading |
| `Am2301Reporter.FailedReadResetsBaseline` | weather.go:76-84 | a failed read after a non-empty baseline publishes nothing and resets the baseline to `Data{}` |
| `Am2301Reporter.PublishedPayloadsAreStampedReadings` | weather.go:78-81 | every payload a run publishes is that tick's driver temperature and humidity stamped with the serial number, and both values are non-zero |
| `Am2301Reporter.StableReadingRepublished` | weather.go:77-84 | with a non-empty serial number, once a valid reading has been published, repeating it publishes the same stamped payload on every tick and keeps that baseline |
| `Am2301Reporter.StartupReadingNeverPublishedWhileStable` | weather.go:74-84 | from the initial `Data{}` baseline, a valid reading above 5 in either channel repeated any number of times is never published; after the first tick it is the unstamped baseline |
| `Am2301Reporter.SpikeStepFailureScenario` | weather.go:74-85 | readings 22/45, 23/46, failure, 23/46 from start-up publish only 23/46 once; the final baseline holds 23/46 unstamped |
| `Am2301Reporter.Reporter.constructor` | weather.go:74 | the baseline starts as `Data{}` |
| `Am2301Reporter.Reporter.Tick` | weather.go:76-85 | the payload published and the new baseline are those of `Step` on the old baseline and the classified reading |
| `Am2301Reporter.Reporter.Run` | weather.go:75-87 | the payloads published and the final baseline are those of `Trace` from the old baseline |
| `Dht22Reporter.GetSensorData` | main.go:32-42 | a `-1` on either channel gives `Data{}`; otherwise the result holds the driver's temperature and humidity (zeros included) and an empty thing id; the result equals `Data{}` exactly when a channel is `-1` or both are 0 |
| `Dht22Reporter.DriverErrorIgnored` | main.go:33 | the classification is the same whether or not the driver reported an error |
| `Dht22Reporter.CmpSensorData` | main.go:44-48 | refused when either channel rises by more than 5, accepted otherwise; a zero reading and a fall of any size pass |
| `Dht22Reporter.Step` | main.go:72-80 | the same five facts as the AM2301 `Step`, with this build's filter |
| `Dht22Reporter.Trace` | main.go:70-82 | one publish decision per reading |
| `Dht22Reporter.FailedReadPublished` | main.go:72-79 | a failed read after a non-empty baseline with both values at least -5 is published as `{serial, 0, 0}`, and that becomes the baseline |
| `Dht22Reporter.FailedReadOnEmptyBaselineIsNoOp` | main.go:72-73 | a failed read against the baseline `Data{}` publishes nothing and leaves the baseline `Data{}` |
| `Dht22Reporter.PersistentFailurePublishedEveryTick` | main.go:72-79 | with a non-empty serial number, a run of failed reads from such a baseline publishes `{serial, 0, 0}` on every tick |
| `Dht22Reporter.PublishedPayloadsAreStamped` | main.go:74-77 | every payload a run publishes is that tick's classified sample stamped with the serial number: the driver's values, or zeros for a `-1` read |
| `Dht22Reporter.StableReadingRepublished` | main.go:73-79 | with a non-empty serial number, once a reading has been published, repeating it publishes the same stamped payload on every tick and keeps that baseline |
| `Dht22Reporter.StartupReadingNeverPublishedWhileStable` | main.go:70-79 | from the initial `Data{}` baseline, a reading above 5 in either channel repeated any number of times is never published |
| `Dht22Reporter.SpikeStepFailureScenario` | main.go:70-80 | readings 22/45, 23/46, failure, 23/46 from start-up publish 23/46 and then `{serial, 0, 0}`; the final baseline holds 23/46 unstamped |
| `Dht22Reporter.Reporter.constructor` | main.go:70 | the baseline starts as `Data{}` |
| `Dht22Reporter.Reporter.Tick` | main.go:72-80 | the payload published and the new baseline are those of `Step` on the old baseline and the classified reading |
| `Dht22Reporter.Reporter.Run` | main.go:71-82 | the payloads published and the final baseline are those of `Trace` from the old baseline |

## Left out

- The broker client is not modelled: its options, the connection, the `panic`
  on a failed connect, and `Publish`. This is network I/O behind a foreign
  library. A publish is `Tick` returning `Some(payload)`.
- The hardware driver call `dht.ReadDHTxx` is not modelled. Its result is the
  input `DriverReading`. The pin number and the sensor type constant are
  therefore not modelled either.
- JSON encoding of the payload is not modelled. Only the field values matter
  to the loop.
- Flag parsing, the topic constant and the broker URL formatting are not
  modelled. They are start-up configuration.
- Reading `/proc/device-tree/serial-number` is not modelled (filesystem I/O).
  Only the trim step is modelled, and the serial number is a constant of
  `Reporter`. Go turns the file's bytes directly into a string; the model
  works on the resulting characters.
- `time.Sleep`, the endless `for` and the console prints are not modelled.
  `Run` over a finite sequence stands in for the loop.
- Temperatures and humidities are `real`, not `float32`. Rounding in the
  float32 subtraction is not modelled.
