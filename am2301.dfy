/** The AM2301 build of the climate reporter: a zero value or a driver error
    is a failed read, and the plausibility filter refuses a zero temperature. */
module Am2301Reporter {
  import opened Telemetry

  /** Classifies one driver result: a usable reading keeps its temperature
      and humidity and has no identity yet; anything else is `NoData`. */
  function GetSensorData(reading: DriverReading): (r: Data)
    ensures r == NoData <==> reading.failed || reading.temperature == 0.0 || reading.humidity == 0.0
    ensures r != NoData ==> r == Data("", reading.temperature, reading.humidity)
  {
    if reading.temperature != 0.0 && reading.humidity != 0.0 && !reading.failed then
      Data("", reading.temperature, reading.humidity)
    else
      NoData
  }

  /** The one-sided plausibility filter: an upward jump of more than 5 in
      either channel, or a zero new temperature, is refused; a fall of any
      size is accepted. The humidity half is guarded by the temperature. */
  function CmpSensorData(current: Data, newData: Data): (ok: bool)
    ensures newData.temp == 0.0 ==> !ok
    ensures newData.temp - current.temp > 5.0 || newData.hum - current.hum > 5.0 ==> !ok
    ensures newData.temp != 0.0 && newData.temp - current.temp <= 5.0 && newData.hum - current.hum <= 5.0 ==> ok
  {
    var correctTemp := newData.temp - current.temp <= 5.0 && newData.temp != 0.0;
    var correctHum := newData.hum - current.hum <= 5.0 && newData.temp != 0.0;
    correctTemp && correctHum
  }

  /** One iteration of the reporting loop from baseline `state` on the
      classified `sample`. */
  function Step(serialNumber: string, state: Data, sample: Data): (r: StepResult)
    // identical on all three fields: nothing happens
    ensures sample == state ==> r == StepResult(None, state)
    // published exactly when the sample changed and passes the filter
    ensures r.published.Some? <==> sample != state && CmpSensorData(state, sample)
    // what is published is the sample stamped with the serial number, and it is stored
    ensures r.published.Some? ==> r.published.value == r.next == sample.(thingId := serialNumber)
    // a changed sample that is refused still becomes the baseline
    ensures sample != state && r.published.None? ==> r.next == sample
    // so the baseline always carries the latest sample's values
    ensures r.next.temp == sample.temp && r.next.hum == sample.hum
  {
    if sample == state then
      StepResult(None, state)
    else if CmpSensorData(state, sample) then
      var stamped := sample.(thingId := serialNumber);
      StepResult(Some(stamped), stamped)
    else
      StepResult(None, sample)
  }

  /** The loop over a finite sequence of driver results, from baseline `start`. */
  function Trace(serialNumber: string, start: Data, readings: seq<DriverReading>): (t: TraceResult)
    ensures |t.outputs| == |readings|
    decreases |readings|
  {
    if readings == [] then
      TraceResult([], start)
    else
      var prev := Trace(serialNumber, start, readings[..|readings| - 1]);
      var s := Step(serialNumber, prev.final, GetSensorData(readings[|readings| - 1]));
      TraceResult(prev.outputs + [s.published], s.next)
  }

  /** A failed read after any non-empty baseline is never published, yet it
      resets the baseline to `NoData`. */
  lemma FailedReadResetsBaseline(serialNumber: string, state: Data, reading: DriverReading)
    requires reading.failed || reading.temperature == 0.0 || reading.humidity == 0.0
    requires state != NoData
    ensures Step(serialNumber, state, GetSensorData(reading)) == StepResult(None, NoData)
  {
  }

  /** Every payload a run publishes is that tick's reading stamped with the
      serial number, with non-zero temperature and humidity: a failed read is
      never published. */
  lemma {:induction false} PublishedPayloadsAreStampedReadings(
    serialNumber: string, start: Data, readings: seq<DriverReading>, i: nat)
    requires i < |readings|
    requires Trace(serialNumber, start, readings).outputs[i].Some?
    ensures var d := Trace(serialNumber, start, readings).outputs[i].value;
      d == Data(serialNumber, readings[i].temperature, readings[i].humidity)
      && d.temp != 0.0 && d.hum != 0.0
  {
    var prefix := readings[..|readings| - 1];
    var prev := Trace(serialNumber, start, prefix);
    if i < |readings| - 1 {
      assert Trace(serialNumber, start, readings).outputs[i] == prev.outputs[i];
      assert prefix[i] == readings[i];
      PublishedPayloadsAreStampedReadings(serialNumber, start, prefix, i);
    }
  }

  /** Once a reading has been published, the same reading on every later
      tick is published again: the stored baseline carries the serial number
      but a fresh sample does not, so they never compare equal. */
  lemma {:induction false} StableReadingRepublished(
    serialNumber: string, reading: DriverReading, readings: seq<DriverReading>)
    requires serialNumber != ""
    requires GetSensorData(reading) != NoData
    requires forall k :: 0 <= k < |readings| ==> readings[k] == reading
    ensures var published := Data(serialNumber, reading.temperature, reading.humidity);
      var t := Trace(serialNumber, published, readings);
      t.final == published && forall k :: 0 <= k < |readings| ==> t.outputs[k] == Some(published)
  {
    var published := Data(serialNumber, reading.temperature, reading.humidity);
    if readings != [] {
      var prefix := readings[..|readings| - 1];
      StableReadingRepublished(serialNumber, reading, prefix);
      var prev := Trace(serialNumber, published, prefix);
      assert prev.final == published;
      assert GetSensorData(reading) != published;
    }
  }

  /** From the initial empty baseline, a reading above 5 degrees or 5 percent
      humidity is refused as a spike but stored unstamped; repeating it is then
      a no-op, so a stable reading taken at start-up is never published. */
  lemma {:induction false} StartupReadingNeverPublishedWhileStable(
    serialNumber: string, reading: DriverReading, readings: seq<DriverReading>)
    requires GetSensorData(reading) != NoData
    requires reading.temperature > 5.0 || reading.humidity > 5.0
    requires forall k :: 0 <= k < |readings| ==> readings[k] == reading
    ensures var t := Trace(serialNumber, NoData, readings);
      (t.final == if readings == [] then NoData else GetSensorData(reading))
      && forall k :: 0 <= k < |readings| ==> t.outputs[k] == None
  {
    if readings != [] {
      var prefix := readings[..|readings| - 1];
      StartupReadingNeverPublishedWhileStable(serialNumber, reading, prefix);
    }
  }

  /** Four ticks from start-up: 22/45 is refused as a spike against the empty
      baseline but stored; 23/46 is a rise of 1 and is published; a driver
      error is refused and resets the baseline to `NoData`; 23/46 again is
      then a spike against zero and is refused but stored unstamped. */
  lemma SpikeStepFailureScenario()
    ensures var sn := "SN";
      var r1 := DriverReading(22.0, 45.0, false);
      var r2 := DriverReading(23.0, 46.0, false);
      var fail := DriverReading(0.0, 0.0, true);
      Trace(sn, NoData, [r1, r2, fail, r2])
      == TraceResult([None, Some(Data(sn, 23.0, 46.0)), None, None], Data("", 23.0, 46.0))
  {
    var sn := "SN";
    var r1 := DriverReading(22.0, 45.0, false);
    var r2 := DriverReading(23.0, 46.0, false);
    var fail := DriverReading(0.0, 0.0, true);
    var rs := [r1, r2, fail, r2];
    assert [r1][..0] == [];
    assert [r1, r2][..1] == [r1];
    assert [r1, r2, fail][..2] == [r1, r2];
    assert rs[..3] == [r1, r2, fail];
    assert Trace(sn, NoData, [r1]) == TraceResult([None], Data("", 22.0, 45.0));
    assert Trace(sn, NoData, [r1, r2]) == TraceResult([None, Some(Data(sn, 23.0, 46.0))], Data(sn, 23.0, 46.0));
    assert Trace(sn, NoData, [r1, r2, fail]) == TraceResult([None, Some(Data(sn, 23.0, 46.0)), None], NoData);
  }

  /** The reporting loop of `main`: the serial number fixed at start-up and the
      baseline `thingData`, which only this loop reads and writes. */
  class Reporter {
    const serialNumber: string
    var thingData: Data

    constructor (serialNumber: string)
      ensures this.serialNumber == serialNumber && thingData == NoData
    {
      this.serialNumber := serialNumber;
      thingData := NoData;
    }

    /** One pass through the loop body on the driver's result `reading`. */
    method Tick(reading: DriverReading) returns (published: Option<Data>)
      modifies this
      ensures StepResult(published, thingData) == Step(serialNumber, old(thingData), GetSensorData(reading))
    {
      var newThingData := GetSensorData(reading);
      published := None;
      if newThingData != thingData {
        if CmpSensorData(thingData, newThingData) {
          newThingData := newThingData.(thingId := serialNumber);
          published := Some(newThingData);
        }
        thingData := newThingData;
      }
    }

    /** The endless loop cut to the finite sequence `readings`: one publish
      decision per reading. */
    method Run(readings: seq<DriverReading>) returns (published: seq<Option<Data>>)
      modifies this
      ensures TraceResult(published, thingData) == Trace(serialNumber, old(thingData), readings)
    {
      published := [];
      var i := 0;
      while i < |readings|
        invariant i <= |readings|
        invariant TraceResult(published, thingData) == Trace(serialNumber, old(thingData), readings[..i])
      {
        var p := Tick(readings[i]);
        assert readings[..i + 1][..i] == readings[..i];
        published := published + [p];
        i := i + 1;
      }
      assert readings[..i] == readings;
    }
  }
}
