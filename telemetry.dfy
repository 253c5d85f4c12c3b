/** Values shared by both sensor variants of the climate reporter: the
    reading payload, the raw result of the sensor driver, the results of one
    loop iteration and of a run of iterations, and the board serial number
    clean-up. */
module Telemetry {

  datatype Option<+T> = None | Some(value: T)

  /** The published payload: the board identity and one temperature/humidity
      pair. Go's float32 fields are modelled as reals. */
  datatype Data = Data(thingId: string, temp: real, hum: real)

  /** Go's zero value `Data{}`: the sensor-read failure marker and the
      initial baseline of the loop. */
  const NoData := Data("", 0.0, 0.0)

  /** What the hardware driver call hands back: temperature, humidity and
      whether it also returned a non-nil error. */
  datatype DriverReading = DriverReading(temperature: real, humidity: real, failed: bool)

  /** Outcome of one loop iteration: the payload published, if any, and the
      baseline kept for the next iteration. */
  datatype StepResult = StepResult(published: Option<Data>, next: Data)

  /** Outcome of a sequence of iterations: one publish decision per reading,
      and the baseline after the last one. */
  datatype TraceResult = TraceResult(outputs: seq<Option<Data>>, final: Data)

  /** The clean-up of the serial number read from the device tree: one
      trailing NUL character is dropped, nothing else is touched. */
  function TrimNulSuffix(value: string): (r: string)
    ensures r <= value
    ensures |value| - |r| <= 1
    ensures |r| < |value| <==> |value| > 0 && value[|value| - 1] == '\0'
  {
    if |value| > 0 && value[|value| - 1] == '\0' then value[..|value| - 1] else value
  }

  /** Appending a NUL and trimming gives the original string back, even when
      that string itself ends in NUL: only one is ever removed. */
  lemma TrimUndoesOneNul(s: string)
    ensures TrimNulSuffix(s + "\0") == s
    ensures TrimNulSuffix(s + "\0\0") == s + "\0"
  {
    assert (s + "\0")[..|s|] == s;
    assert (s + "\0\0")[..|s| + 1] == s + "\0";
  }
}
