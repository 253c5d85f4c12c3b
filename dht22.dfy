/** The DHT22 build of the climate reporter: `-1` on either channel is a
    failed read, the driver's error is discarded, and the plausibility filter
    has no zero guard. */
module Dht22Reporter {
  import opened Telemetry

  /** Classifies one driver result: unless a channel reads `-1`, the reading
      keeps its temperature and humidity and has no identity yet. A genuine
      reading of 0 and 0 is the same value as the failure marker. */
  function GetSensorData(reading: DriverReading): (r: Data)
    ensures reading.temperature == -1.0 || reading.humidity == -1.0 ==> r == NoData
    ensures reading.temperature != -1.0 && reading.humidity != -1.0 ==>
      r == Data("", reading.temperature, reading.humidity)
    ensures r == NoData <==>
      reading.temperature == -1.0 || reading.humidity == -1.0 ||
      (reading.temperature == 0.0 && reading.humidity == 0.0)
  {
    if reading.temperature != -1.0 && reading.humidity != -1.0 then
      Data("", reading.temperature, reading.humidity)
    else
      NoData
  }

  /** The driver's error flag plays no part in the classification. */
  lemma DriverErrorIgnored(reading: DriverReading)
    ensures GetSensorData(reading.(failed := true)) == GetSensorData(reading.(failed := false))
  {
  }

  /** The one-sided plausibility filter: an upward jump of more than 5 in
      either channel is refused; a fall of any size, and a zero reading, are
      accepted. */
  function CmpSensorData(current: Data, newData: Data): (ok: bool)
    ensures newData.temp - current.temp > 5.0 || newData.hum - current.hum > 5.0 ==> !ok
    ensures newData.temp - current.temp <= 5.0 && newData.hum - current.hum <= 5.0 ==> ok
  {
    var correctTemp := newData.temp - current.temp <= 5.0;
    var correctHum := newData.hum - current.hum <= 5.0;
    correctTemp && correctHum
  }

  /** One iteration of the reporting loop from baseline `state` on the
      classified `sample`. */
  function Step(serialNumber: string, state: Data, sample: Data): (r: StepResult)
    // identical on all three fields: nothing happens
    ensures sample == state ==> r == StepResult(None, state)
    // published exactly when the sample changed and passes the filter
    ensures r.published.Some? <==> sample != state && CmpSensorData(state, sample)
    // what is published is the sample stamped with the serial number, and it is stored
    ensures r.published.Some? ==> r.published.value == r.next == sample.(thingId := serialNumber)
    // a changed sample that is refused still becomes the baseline
    ensures sample != state && r.published.None? ==> r.next == sample
    // so the baseline always carries the latest sample's values
    ensures r.next.temp == sample.temp && r.next.hum == sample.hum
  {
    if sample == state then
      StepResult(None, state)
    else if CmpSensorData(state, sample) then
      var stamped := sample.(thingId := serialNumber);
      StepResult(Some(stamped), stamped)
    else
      StepResult(None, sample)
  }

  /** The loop over a finite sequence of driver results, from baseline `start`. */
  function Trace(serialNumber: string, start: Data, readings: seq<DriverReading>): (t: TraceResult)
    ensures |t.outputs| == |readings|
    decreases |readings|
  {
    if readings == [] then
      TraceResult([], start)
    else
      var prev := Trace(serialNumber, start, readings[..|readings| - 1]);
      var s := Step(serialNumber, prev.final, GetSensorData(readings[|readings| - 1]));
      TraceResult(prev.outputs + [s.published], s.next)
  }

  /** With no zero guard, a failed read after any baseline whose values are
      at least -5 passes the filter and is published as zeros. */
  lemma FailedReadPublished(serialNumber: string, state: Data, reading: DriverReading)
    requires reading.temperature == -1.0 || reading.humidity == -1.0
    requires state != NoData
    requires state.temp >= -5.0 && state.hum >= -5.0
    ensures var zeros := Data(serialNumber, 0.0, 0.0);
      Step(serialNumber, state, GetSensorData(reading)) == StepResult(Some(zeros), zeros)
  {
  }

  /** When the baseline is already `NoData` (a failed first tick, or a
      failure after an unpublished one), a failed read equals it and the tick
      does nothing. */
  lemma FailedReadOnEmptyBaselineIsNoOp(serialNumber: string, reading: DriverReading)
    requires reading.temperature == -1.0 || reading.humidity == -1.0
    ensures Step(serialNumber, NoData, GetSensorData(reading)) == StepResult(None, NoData)
  {
  }

  /** A sensor that keeps failing is reported as reading zero on every tick:
      the stored zeros carry the serial number, the failure marker does not. */
  lemma {:induction false} PersistentFailurePublishedEveryTick(
    serialNumber: string, start: Data, readings: seq<DriverReading>)
    requires serialNumber != ""
    requires start != NoData
    requires start.temp >= -5.0 && start.hum >= -5.0
    requires forall k :: 0 <= k < |readings| ==>
      readings[k].temperature == -1.0 || readings[k].humidity == -1.0
    ensures var zeros := Data(serialNumber, 0.0, 0.0);
      var t := Trace(serialNumber, start, readings);
      (t.final == if readings == [] then start else zeros)
      && forall k :: 0 <= k < |readings| ==> t.outputs[k] == Some(zeros)
  {
    if readings != [] {
      var prefix := readings[..|readings| - 1];
      PersistentFailurePublishedEveryTick(serialNumber, start, prefix);
    }
  }

  /** Every payload a run publishes is that tick's classified sample stamped
      with the serial number: the driver's values, or zeros for a `-1` read. */
  lemma {:induction false} PublishedPayloadsAreStamped(
    serialNumber: string, start: Data, readings: seq<DriverReading>, i: nat)
    requires i < |readings|
    requires Trace(serialNumber, start, readings).outputs[i].Some?
    ensures Trace(serialNumber, start, readings).outputs[i].value
      == GetSensorData(readings[i]).(thingId := serialNumber)
  {
    var prefix := readings[..|readings| - 1];
    var prev := Trace(serialNumber, start, prefix);
    if i < |readings| - 1 {
      assert Trace(serialNumber, start, readings).outputs[i] == prev.outputs[i];
      assert prefix[i] == readings[i];
      PublishedPayloadsAreStamped(serialNumber, start, prefix, i);
    }
  }

  /** Once a reading has been published, the same reading on every later
      tick is published again: the stored baseline carries the serial number
      but a fresh sample does not, so they never compare equal. */
  lemma {:induction false} StableReadingRepublished(
    serialNumber: string, reading: DriverReading, readings: seq<DriverReading>)
    requires serialNumber != ""
    requires reading.temperature != -1.0 && reading.humidity != -1.0
    requires forall k :: 0 <= k < |readings| ==> readings[k] == reading
    ensures var published := Data(serialNumber, reading.temperature, reading.humidity);
      var t := Trace(serialNumber, published, readings);
      t.final == published && forall k :: 0 <= k < |readings| ==> t.outputs[k] == Some(published)
  {
    var published := Data(serialNumber, reading.temperature, reading.humidity);
    if readings != [] {
      var prefix := readings[..|readings| - 1];
      StableReadingRepublished(serialNumber, reading, prefix);
      var prev := Trace(serialNumber, published, prefix);
      assert prev.final == published;
      assert GetSensorData(reading) != published;
    }
  }

  /** From the initial empty baseline, a reading above 5 degrees or 5 percent
      humidity is refused as a spike but stored unstamped; repeating it is then
      a no-op, so a stable reading taken at start-up is never published. */
  lemma {:induction false} StartupReadingNeverPublishedWhileStable(
    serialNumber: string, reading: DriverReading, readings: seq<DriverReading>)
    requires reading.temperature != -1.0 && reading.humidity != -1.0
    requires reading.temperature > 5.0 || reading.humidity > 5.0
    requires forall k :: 0 <= k < |readings| ==> readings[k] == reading
    ensures var t := Trace(serialNumber, NoData, readings);
      (t.final == if readings == [] then NoData else GetSensorData(reading))
      && forall k :: 0 <= k < |readings| ==> t.outputs[k] == None
  {
    if readings != [] {
      var prefix := readings[..|readings| - 1];
      StartupReadingNeverPublishedWhileStable(serialNumber, reading, prefix);
    }
  }

  /** Four ticks from start-up: 22/45 is refused as a spike against the empty
      baseline but stored; 23/46 is a rise of 1 and is published; a `-1` read
      is a fall and is published as zeros; 23/46 again is then a spike
      against zero and is refused but stored unstamped. */
  lemma SpikeStepFailureScenario()
    ensures var sn := "SN";
      var r1 := DriverReading(22.0, 45.0, false);
      var r2 := DriverReading(23.0, 46.0, false);
      var fail := DriverReading(-1.0, -1.0, true);
      Trace(sn, NoData, [r1, r2, fail, r2])
      == TraceResult([None, Some(Data(sn, 23.0, 46.0)), Some(Data(sn, 0.0, 0.0)), None], Data("", 23.0, 46.0))
  {
    var sn := "SN";
    var r1 := DriverReading(22.0, 45.0, false);
    var r2 := DriverReading(23.0, 46.0, false);
    var fail := DriverReading(-1.0, -1.0, true);
    var rs := [r1, r2, fail, r2];
    assert [r1][..0] == [];
    assert [r1, r2][..1] == [r1];
    assert [r1, r2, fail][..2] == [r1, r2];
    assert rs[..3] == [r1, r2, fail];
    assert Trace(sn, NoData, [r1]) == TraceResult([None], Data("", 22.0, 45.0));
    assert Trace(sn, NoData, [r1, r2]) == TraceResult([None, Some(Data(sn, 23.0, 46.0))], Data(sn, 23.0, 46.0));
    assert Trace(sn, NoData, [r1, r2, fail])
      == TraceResult([None, Some(Data(sn, 23.0, 46.0)), Some(Data(sn, 0.0, 0.0))], Data(sn, 0.0, 0.0));
  }

  /** The reporting loop of `main`: the serial number fixed at start-up and the
      baseline `thingData`, which only this loop reads and writes. */
  class Reporter {
    const serialNumber: string
    var thingData: Data

    constructor (serialNumber: string)
      ensures this.serialNumber == serialNumber && thingData == NoData
    {
      this.serialNumber := serialNumber;
      thingData := NoData;
    }

    /** One pass through the loop body on the driver's result `reading`. */
    method Tick(reading: DriverReading) returns (published: Option<Data>)
      modifies this
      ensures StepResult(published, thingData) == Step(serialNumber, old(thingData), GetSensorData(reading))
    {
      var newThingData := GetSensorData(reading);
      published := None;
      if newThingData != thingData {
        if CmpSensorData(thingData, newThingData) {
          newThingData := newThingData.(thingId := serialNumber);
          published := Some(newThingData);
        }
        thingData := newThingData;
      }
    }

    /** The endless loop cut to the finite sequence `readings`: one publish
      decision per reading. */
    method Run(readings: seq<DriverReading>) returns (published: seq<Option<Data>>)
      modifies this
      ensures TraceResult(published, thingData) == Trace(serialNumber, old(thingData), readings)
    {
      published := [];
      var i := 0;
      while i < |readings|
        invariant i <= |readings|
        invariant TraceResult(published, thingData) == Trace(serialNumber, old(thingData), readings[..i])
      {
        var p := Tick(readings[i]);
        assert readings[..i + 1][..i] == readings[..i];
        published := published + [p];
        i := i + 1;
      }
      assert readings[..i] == readings;
    }
  }
}
