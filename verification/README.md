# Train-arrival LED board: model of the filter, mapper and display cycle

This project models the small amount of pure logic in a train-arrival board.
The board polls a transit API for the arrivals on a tube line. It maps the
station name of every arrival to an LED index on a 50-LED strip and lights
that LED in red. Separately, the API client offers a filter that narrows
arrivals to one station, ignoring case. In the program the two are not
connected: the LED loop sees all of the line's arrivals, unfiltered, and the
filter is only called by the client's own printing demo.

- `ascii_text.dfy` (`AsciiText`): the case folding the station filter uses.
- `tfl_api.dfy` (`TflApi`): the arrival record and `filter_train_data`.
- `led_controller.dfy` (`LedController`): the strip as a sequence of colour
  triples, `light_up_led`, `get_train_position` with its `-1` sentinel, and
  one cycle of the polling loop. The cycle appears twice: as a recursive
  fold (`PollCycle`) and as the source's `for` loop (`RunPollCycle`). Both
  are tied to an independent reference, `LastMappedPosition`: the LED of
  the last arrival that has one.

## Model

| member | source | states |
|---|---|---|
| AsciiText.Lower | src/api/tfl_api.py:62 | Lower-casing keeps the length and lowers each character in place: 'A'..'Z' move to 'a'..'z', everything else is kept |
| AsciiText.LowerIdempotent | src/api/tfl_api.py:62 | Lower-casing an already lower-cased string changes nothing |
| TflApi.FilterTrainData | src/api/tfl_api.py:51-62 | The result is no longer than the input; each record in it comes from the input and matches the station ignoring case; each matching input record appears in it |
| TflApi.FilterIsSubsequence | src/api/tfl_api.py:62 | The result is a subsequence of the input, so the relative order of the arrivals is kept |
| TflApi.FilterCounts | src/api/tfl_api.py:62 | Each matching record occurs in the result exactly as many times as in the input; a non-matching record does not occur at all |
| TflApi.FilterConcat | src/api/tfl_api.py:62 | Filtering `a + b` gives the filtered `a` followed by the filtered `b` |
| TflApi.FilterIdempotent | src/api/tfl_api.py:62 | Filtering a filtered list again for the same station returns it unchanged |
| TflApi.FilterCaseInsensitive | src/api/tfl_api.py:62 | Two target names with the same lower-case form select identical results |
| TflApi.FilterLoweredTarget | src/api/tfl_api.py:62 | Lower-casing the target before filtering does not change the result |
| TflApi.FilterEmptyName | src/api/tfl_api.py:62 | An empty target selects nothing when every record has a non-empty station name |
| LedController.LightUpLed | src/led_control/led_controller.py:12-17 | With 0 <= k < 50, the updated strip still has 50 LEDs: LED k is (255,0,0), every other LED is (0,0,0), and exactly one LED is lit |
| LedController.LightUpLedForgetsPrior | src/led_control/led_controller.py:14 | The update does not depend on the strip's previous contents, because the fill overwrites every LED |
| LedController.LightUpLedIdempotent | src/led_control/led_controller.py:14-17 | Lighting the same LED twice gives the same strip as lighting it once |
| LedController.GetTrainPosition | src/led_control/led_controller.py:23-31 | 'Oxford Circus', 'Bond Street', 'Bank' and 'Liverpool Street' map to 5, 6, 10 and 12, each one only from its exact name. Every other name maps to -1, and any other answer lies on the strip |
| LedController.GetTrainPositionInjective | src/led_control/led_controller.py:25-30 | Two different stations never share an LED |
| LedController.MapperIsCaseSensitive | src/led_control/led_controller.py:31 | A record the filter selects for 'Oxford Circus' ('oxford circus') has no LED, because the mapper matches names exactly |
| LedController.Step | src/led_control/led_controller.py:45-48 | An arrival whose station has an LED leaves only that LED lit, in red (255,0,0); any other arrival leaves the strip unchanged |
| LedController.PollCycle | src/led_control/led_controller.py:44-48 | The cycle keeps the strip length and the at-most-one-lit invariant; it leaves the strip unchanged when no arrival has an LED |
| LedController.LastMappedPosition | src/led_control/led_controller.py:44-48 | The reference outcome is -1 exactly when no arrival has an LED, and otherwise an index on the strip |
| LedController.LastMappedPositionIsLast | src/led_control/led_controller.py:44-48 | A reference outcome other than -1 is the LED of some arrival, and no later arrival has an LED |
| LedController.PollCycleSnoc | src/led_control/led_controller.py:44-48 | Processing one more arrival after the others is one more loop-body step on the strip |
| LedController.PollCycleLastWriteWins | src/led_control/led_controller.py:44-48 | Last write wins: the cycle's strip equals lighting the last mapped arrival's LED, or is the old strip when no arrival maps |
| LedController.RunPollCycle | src/led_control/led_controller.py:44-48 | The `for` loop as written ends in the same state as the reference outcome: the last mapped arrival's LED alone, or the old strip untouched |
| LedController.ScenarioSingleArrival | src/led_control/led_controller.py:44-48 | One arrival at Oxford Circus leaves only LED 5 lit |
| LedController.ScenarioLastWriteWins | src/led_control/led_controller.py:44-48 | Arrivals at Oxford Circus and then Bank leave only LED 10 lit |
| LedController.ScenarioNoArrivals | src/led_control/led_controller.py:44-48 | An empty arrivals list, which is what a failed fetch returns, leaves the strip unchanged |

## Left out

- `load_config` and the YAML credential file (src/api/tfl_api.py:6-25): file I/O and a third-party parser.
- `get_train_data` (src/api/tfl_api.py:30-49): an HTTP GET plus JSON decoding. Each cycle's arrivals are a parameter instead. A failed request returns `[]`, which `ScenarioNoArrivals` covers.
- The fetch call in the polling loop (src/led_control/led_controller.py:41): it passes one argument to a two-argument function that the file never imports, so it cannot run as written. The arrivals are taken as an input.
- The NeoPixel set-up, `brightness` and `pixels.show()` (src/led_control/led_controller.py:7-9, 18): a hardware driver. Only its colour buffer is modelled.
- `time.sleep(10)` and the unbounded `while True` (src/led_control/led_controller.py:39, 51): timing and non-termination. One cycle is modelled as a function of the given arrivals.
- Module-level demo calls and prints (src/led_control/led_controller.py:21, 34-37; src/api/tfl_api.py:66-84).
- AsciiText.Lower: Python's `str.lower()` follows full Unicode case mapping, which can change a string's length. The model lowers only 'A'..'Z'. The filter's properties rely only on lowering being a fixed, idempotent function of the name that maps only the empty string to the empty string; Python's `lower()` has both properties too.
- LedController.LightUpLed: requires 0 <= position < 50. Python would wrap a negative index and raise on one that is too large. The loop's guard (line 47) and the mapper's range rule both cases out.
- Records without a station name: an arrival record always carries `stationName`. The `KeyError` that a JSON object without that key would raise in the filter or the loop is not modelled.
- `get_tube_lines`, `get_stations_on_lines`, `get_all_line_disruptions` and the global `app_key` loader (tests/test_api.py:6-153): HTTP requests, JSON decoding and YAML loading, all outside the display logic.
- An empty target name does not always give an empty filter result. The comparison at src/api/tfl_api.py:62 also selects records whose station name is itself empty. `TflApi.FilterEmptyName` therefore states the empty result only for records that all carry a non-empty name.
