/**
 * The display-only sketch (Software/code_1): a five-reading window, the
 * 2000 ms tick gate and the averages passed to `displayData`.  The sensor is
 * an input: each of `temperature` and `humidity` is `None` when
 * `readTemperature()` or `readHumidity()` returned not-a-number.
 */
module SensorNode {
  import opened Wrappers
  import opened TickGate
  import opened SampleWindow

  /** NUM_SAMPLES of this sketch. */
  const NumSamples: nat := 5

  /** The sketch's global state: `lastUpdateTime` and the sample window. */
  class Station {
    var lastUpdateTime: uint32
    const window: Window

    ghost predicate Valid()
      reads this, window, window.tempReadings, window.humReadings
    {
      window.Valid() && window.N == NumSamples
    }

    /** The globals as initialised before `setup()` runs. */
    constructor ()
      ensures Valid() && fresh(window) && fresh(window.tempReadings) && fresh(window.humReadings)
      ensures lastUpdateTime == 0 && window.history == []
      ensures window.sampleIndex == 0 && window.validSamples == 0
    {
      lastUpdateTime := 0;
      window := new Window(NumSamples);
    }

    /**
     * One call of `loop()` at time `currentMillis`.  When the gate is due the
     * tick is consumed (`lastUpdateTime := currentMillis`) whether or not the
     * reading is valid; a not-a-number value leaves the window untouched; a
     * valid reading is pushed, and once the window is full the averages of
     * the last five readings and the signal level are displayed.
     */
    method Loop(currentMillis: uint32, temperature: Option<real>, humidity: Option<real>)
      returns (shown: Option<Display>)
      requires Valid()
      modifies this, window, window.tempReadings, window.humReadings
      ensures Valid()
      ensures lastUpdateTime
        == if Due(currentMillis, old(lastUpdateTime)) then currentMillis else old(lastUpdateTime)
      ensures Due(currentMillis, old(lastUpdateTime)) && temperature.Some? && humidity.Some? ==>
        window.history == old(window.history) + [Reading(temperature.value, humidity.value)]
      ensures !(Due(currentMillis, old(lastUpdateTime)) && temperature.Some? && humidity.Some?) ==>
        unchanged(window, window.tempReadings, window.humReadings)
      ensures shown.Some? <==>
        Due(currentMillis, old(lastUpdateTime)) && temperature.Some? && humidity.Some? && window.Ready()
      ensures shown.Some? ==> shown.value == Display(
        Mean(Recent(Temperatures(window.history), NumSamples)),
        Mean(Recent(Humidities(window.history), NumSamples)),
        SignalLevel(currentMillis))
    {
      shown := None;
      if Elapsed(currentMillis, lastUpdateTime) >= UpdateInterval {
        lastUpdateTime := currentMillis;
        if temperature.None? || humidity.None? {
          return;
        }
        shown := Sample(currentMillis, temperature.value, humidity.value);
      }
    }

    /**
     * The valid-reading branch of `loop()`: push both values, and once the
     * window is full show the averages of the last five readings and the
     * signal level.
     */
    method Sample(currentMillis: uint32, temperature: real, humidity: real)
      returns (shown: Option<Display>)
      requires Valid()
      modifies window, window.tempReadings, window.humReadings
      ensures Valid()
      ensures window.history == old(window.history) + [Reading(temperature, humidity)]
      ensures shown.Some? <==> window.Ready()
      ensures shown.Some? ==> shown.value == Display(
        Mean(Recent(Temperatures(window.history), NumSamples)),
        Mean(Recent(Humidities(window.history), NumSamples)),
        SignalLevel(currentMillis))
    {
      shown := None;
      window.Push(temperature, humidity);
      if window.validSamples == NumSamples {
        var avgTemp, avgHum := window.Averages();
        var signalLevel := SignalLevel(currentMillis);
        shown := Some(Display(avgTemp, avgHum, signalLevel));
      }
    }
  }
}
