/**
 * The radio sketch (Software/code_2): a two-reading window, the 2000 ms tick
 * gate, the averages passed to `displayData`, and the API frame that carries
 * the averages as text to the XBee.  As in the display-only sketch, each
 * sensor value is an input that is `None` when it read as not-a-number.
 * `String(float)` is left abstract as the parameter `render`.
 */
module XBeeNode {
  import opened Wrappers
  import opened TickGate
  import opened SampleWindow
  import opened XBeeFrame

  /** NUM_SAMPLES of this sketch. */
  const NumSamples: nat := 2

  /**
   * A bound on the text of one rendered value under which the whole payload
   * "T:<t> H:<h>" fits the frame's 8-bit length arithmetic.
   */
  const MaxRenderedLength: nat := (MaxPayload - 5) / 2

  /** `"T:" + t + " H:" + h`, as the bytes of the ASCII text. */
  function TextPayload(t: seq<uint8>, h: seq<uint8>): (p: seq<uint8>)
    ensures |p| == |t| + |h| + 5
    ensures p[..2] == [0x54, 0x3A] && p[2..2 + |t|] == t
    ensures p[2 + |t|..5 + |t|] == [0x20, 0x48, 0x3A] && p[5 + |t|..] == h
  {
    [0x54, 0x3A] + t + [0x20, 0x48, 0x3A] + h
  }

  /** The sketch's global state: `lastUpdateTime` and the sample window. */
  class Station {
    var lastUpdateTime: uint32
    const window: Window

    ghost predicate Valid()
      reads this, window, window.tempReadings, window.humReadings
    {
      window.Valid() && window.N == NumSamples
    }

    /** The globals as initialised before `setup()` runs. */
    constructor ()
      ensures Valid() && fresh(window) && fresh(window.tempReadings) && fresh(window.humReadings)
      ensures lastUpdateTime == 0 && window.history == []
      ensures window.sampleIndex == 0 && window.validSamples == 0
    {
      lastUpdateTime := 0;
      window := new Window(NumSamples);
    }

    /**
     * One call of `loop()` at time `currentMillis`.  Like the display-only
     * sketch, and in addition, whenever the averages are displayed the frame
     * carrying "T:<avgTemp> H:<avgHum>" to DestAddress is sent; no frame is
     * sent on any other call.
     */
    method Loop(currentMillis: uint32, temperature: Option<real>, humidity: Option<real>,
                render: real -> seq<uint8>)
      returns (shown: Option<Display>, sent: Option<seq<uint8>>)
      requires Valid()
      requires forall x :: |render(x)| <= MaxRenderedLength
      modifies this, window, window.tempReadings, window.humReadings
      ensures Valid()
      ensures lastUpdateTime
        == if Due(currentMillis, old(lastUpdateTime)) then currentMillis else old(lastUpdateTime)
      ensures Due(currentMillis, old(lastUpdateTime)) && temperature.Some? && humidity.Some? ==>
        window.history == old(window.history) + [Reading(temperature.value, humidity.value)]
      ensures !(Due(currentMillis, old(lastUpdateTime)) && temperature.Some? && humidity.Some?) ==>
        unchanged(window, window.tempReadings, window.humReadings)
      ensures shown.Some? <==>
        Due(currentMillis, old(lastUpdateTime)) && temperature.Some? && humidity.Some? && window.Ready()
      ensures sent.Some? <==> shown.Some?
      ensures shown.Some? ==>
        var avgTemp := Mean(Recent(Temperatures(window.history), NumSamples));
        var avgHum := Mean(Recent(Humidities(window.history), NumSamples));
        && shown.value == Display(avgTemp, avgHum, SignalLevel(currentMillis))
        && sent.value == Frame(TextPayload(render(avgTemp), render(avgHum)), DestAddress)
    {
      shown, sent := None, None;
      if Elapsed(currentMillis, lastUpdateTime) >= UpdateInterval {
        lastUpdateTime := currentMillis;
        if temperature.None? || humidity.None? {
          return;
        }
        shown, sent := Sample(currentMillis, temperature.value, humidity.value, render);
      }
    }

    /**
     * The valid-reading branch of `loop()`: push both values, and once the
     * window is full show the averages of the last two readings and send
     * them as text in one transmit-request frame.
     */
    method Sample(currentMillis: uint32, temperature: real, humidity: real,
                  render: real -> seq<uint8>)
      returns (shown: Option<Display>, sent: Option<seq<uint8>>)
      requires Valid()
      requires forall x :: |render(x)| <= MaxRenderedLength
      modifies window, window.tempReadings, window.humReadings
      ensures Valid()
      ensures window.history == old(window.history) + [Reading(temperature, humidity)]
      ensures shown.Some? <==> window.Ready()
      ensures sent.Some? <==> shown.Some?
      ensures shown.Some? ==>
        var avgTemp := Mean(Recent(Temperatures(window.history), NumSamples));
        var avgHum := Mean(Recent(Humidities(window.history), NumSamples));
        && shown.value == Display(avgTemp, avgHum, SignalLevel(currentMillis))
        && sent.value == Frame(TextPayload(render(avgTemp), render(avgHum)), DestAddress)
    {
      shown, sent := None, None;
      window.Push(temperature, humidity);
      if window.validSamples == NumSamples {
        var avgTemp, avgHum := window.Averages();
        var signalLevel := SignalLevel(currentMillis);
        shown := Some(Display(avgTemp, avgHum, signalLevel));
        var dataToSend := TextPayload(render(avgTemp), render(avgHum));
        var frame := SendXBeeData(dataToSend, DestAddress);
        sent := Some(frame);
      }
    }
  }

  /**
   * The two-sample example: after (20, 50) and then (22, 52) a window of two
   * is full and averages to (21, 51).
   */
  lemma TwoSampleExample()
    ensures var h := [Reading(20.0, 50.0), Reading(22.0, 52.0)];
      && Replay(Temperatures(h), NumSamples) == [20.0, 22.0]
      && Replay(Humidities(h), NumSamples) == [50.0, 52.0]
      && Mean(Recent(Temperatures(h), NumSamples)) == 21.0
      && Mean(Recent(Humidities(h), NumSamples)) == 51.0
  {
    var h := [Reading(20.0, 50.0), Reading(22.0, 52.0)];
    assert Temperatures(h) == [20.0, 22.0] && Humidities(h) == [50.0, 52.0];
    ReplayFull(Temperatures(h), NumSamples);
    ReplayFull(Humidities(h), NumSamples);
    assert Recent(Temperatures(h), NumSamples) == [20.0, 22.0];
    assert Recent(Humidities(h), NumSamples) == [50.0, 52.0];
    assert [20.0, 22.0][..1] == [20.0] && [50.0, 52.0][..1] == [50.0];
    assert [20.0][..0] == [] && [50.0][..0] == [];
    assert Sum([20.0]) == 20.0 && Sum([50.0]) == 50.0;
    assert Sum([20.0, 22.0]) == 42.0 && Sum([50.0, 52.0]) == 102.0;
  }
}
