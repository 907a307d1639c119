/**
 The LED controller: a strip of `NumPixels` colour cells, the fixed map from
 station name to LED index, the "light one LED" update, and one cycle of the
 polling loop folded over a list of arrivals. The hardware driver, the
 fetch call and the sleep between cycles are not modelled; the strip is the
 driver's colour buffer and the arrivals of a cycle are given.
 */
module LedController {
  import opened TflApi

  /** Length of the strip. */
  const NumPixels: nat := 50

  /** The mapper's "no LED for this station" answer. */
  const NotFound: int := -1

  /** One colour channel, 0..255 as the driver takes it. */
  type Channel = x: int | 0 <= x <= 255

  datatype Colour = Colour(red: Channel, green: Channel, blue: Channel)

  const Off: Colour := Colour(0, 0, 0)
  const Red: Colour := Colour(255, 0, 0)

  /** The driver's colour buffer, one colour per LED. */
  type Strip = seq<Colour>

  /** Indices of the LEDs that are not dark. */
  function LitPositions(s: Strip): set<int> {
    set i | 0 <= i < |s| && s[i] != Off
  }

  /** The display invariant: no two LEDs are lit at once. */
  predicate AtMostOneLit(s: Strip) {
    forall i, j :: i in LitPositions(s) && j in LitPositions(s) ==> i == j
  }

  // ---------------------------------------------------------------------------
  // Display update

  /**
   Clear the whole strip, then make the LED at `position` red. The guard in
   the polling loop only passes positions the mapper produced, which lie on
   the strip.
   */
  function LightUpLed(strip: Strip, position: int): (r: Strip)
    requires |strip| == NumPixels
    requires 0 <= position < NumPixels
    ensures |r| == NumPixels
    ensures r[position] == Red
    ensures forall i :: 0 <= i < |r| && i != position ==> r[i] == Off
    ensures LitPositions(r) == {position}
    ensures AtMostOneLit(r)
  {
    seq(|strip|, i => if i == position then Red else Off)
  }

  /** The strip before the update does not matter: the clear overwrites all of it. */
  lemma LightUpLedForgetsPrior(s1: Strip, s2: Strip, position: int)
    requires |s1| == NumPixels && |s2| == NumPixels
    requires 0 <= position < NumPixels
    ensures LightUpLed(s1, position) == LightUpLed(s2, position)
  {
  }

  /** Lighting the same LED twice is lighting it once. */
  lemma LightUpLedIdempotent(strip: Strip, position: int)
    requires |strip| == NumPixels
    requires 0 <= position < NumPixels
    ensures LightUpLed(LightUpLed(strip, position), position) == LightUpLed(strip, position)
  {
  }

  // ---------------------------------------------------------------------------
  // Position mapper

  /** The fixed station-to-LED table. */
  const StationMap: map<string, int> :=
    map["Oxford Circus" := 5, "Bond Street" := 6, "Bank" := 10, "Liverpool Street" := 12]

  /**
   The LED for a station, by exact (case-sensitive) name, or `NotFound` for
   a station that has none.
   */
  function GetTrainPosition(stationName: string): (p: int)
    ensures p == 5 <==> stationName == "Oxford Circus"
    ensures p == 6 <==> stationName == "Bond Street"
    ensures p == 10 <==> stationName == "Bank"
    ensures p == 12 <==> stationName == "Liverpool Street"
    ensures p == NotFound <==>
      stationName !in {"Oxford Circus", "Bond Street", "Bank", "Liverpool Street"}
    ensures p == NotFound || 0 <= p < NumPixels
  {
    if stationName in StationMap then StationMap[stationName] else NotFound
  }

  /** Distinct stations never share an LED. */
  lemma GetTrainPositionInjective(a: string, b: string)
    requires GetTrainPosition(a) != NotFound
    ensures GetTrainPosition(a) == GetTrainPosition(b) ==> a == b
  {
  }

  /**
   The filter ignores case but the mapper does not: a record the filter
   selects for "Oxford Circus" can still have no LED.
   */
  lemma MapperIsCaseSensitive()
    ensures AtStation(Arrival("oxford circus", "Epping", 120), "Oxford Circus")
    ensures GetTrainPosition("oxford circus") == NotFound
  {
  }

  // ---------------------------------------------------------------------------
  // One poll cycle

  /** A record whose station has an LED. */
  predicate HasPosition(t: Arrival) {
    GetTrainPosition(t.stationName) != NotFound
  }

  /** The loop body for one arrival: light its LED if it has one. */
  function Step(strip: Strip, t: Arrival): (r: Strip)
    requires |strip| == NumPixels
    ensures |r| == NumPixels
    ensures HasPosition(t) ==> r[GetTrainPosition(t.stationName)] == Red
    ensures HasPosition(t) ==> LitPositions(r) == {GetTrainPosition(t.stationName)}
    ensures !HasPosition(t) ==> r == strip
  {
    var p := GetTrainPosition(t.stationName);
    if p != NotFound then LightUpLed(strip, p) else strip
  }

  /** One poll cycle: the loop body applied to each arrival in order. */
  function PollCycle(strip: Strip, arrivals: seq<Arrival>): (r: Strip)
    requires |strip| == NumPixels
    ensures |r| == NumPixels
    ensures AtMostOneLit(strip) ==> AtMostOneLit(r)
    ensures (forall i :: 0 <= i < |arrivals| ==> !HasPosition(arrivals[i])) ==> r == strip
    decreases |arrivals|
  {
    if |arrivals| == 0 then strip
    else PollCycle(Step(strip, arrivals[0]), arrivals[1..])
  }

  /**
   Reference for the outcome of a cycle: the LED of the last arrival that has
   one, or `NotFound` when none has.
   */
  function LastMappedPosition(arrivals: seq<Arrival>): (p: int)
    ensures p == NotFound || 0 <= p < NumPixels
    ensures p == NotFound <==> forall i :: 0 <= i < |arrivals| ==> !HasPosition(arrivals[i])
    decreases |arrivals|
  {
    if |arrivals| == 0 then NotFound
    else
      var last := arrivals[|arrivals| - 1];
      if HasPosition(last) then GetTrainPosition(last.stationName)
      else LastMappedPosition(arrivals[..|arrivals| - 1])
  }

  /**
   The reference answer, when there is one, is the LED of an arrival that
   has one, and every later arrival has none.
   */
  lemma {:induction false} LastMappedPositionIsLast(arrivals: seq<Arrival>)
    requires LastMappedPosition(arrivals) != NotFound
    ensures exists i ::
              && 0 <= i < |arrivals|
              && GetTrainPosition(arrivals[i].stationName) == LastMappedPosition(arrivals)
              && forall j :: i < j < |arrivals| ==> !HasPosition(arrivals[j])
    decreases |arrivals|
  {
    var n := |arrivals| - 1;
    if !HasPosition(arrivals[n]) {
      var init := arrivals[..n];
      LastMappedPositionIsLast(init);
      var i :| 0 <= i < |init|
        && GetTrainPosition(init[i].stationName) == LastMappedPosition(init)
        && forall j :: i < j < |init| ==> !HasPosition(init[j]);
      assert arrivals[i] == init[i];
      assert forall j :: i < j < |arrivals| ==> !HasPosition(arrivals[j]) by {
        forall j | i < j < |arrivals|
          ensures !HasPosition(arrivals[j])
        {
          if j < n {
            assert arrivals[j] == init[j];
          }
        }
      }
    } else {
      assert GetTrainPosition(arrivals[n].stationName) == LastMappedPosition(arrivals);
    }
  }

  /** Processing one more arrival at the end is one more loop-body step. */
  lemma {:induction false} PollCycleSnoc(strip: Strip, arrivals: seq<Arrival>, t: Arrival)
    requires |strip| == NumPixels
    ensures PollCycle(strip, arrivals + [t]) == Step(PollCycle(strip, arrivals), t)
    decreases |arrivals|
  {
    if |arrivals| == 0 {
      assert arrivals + [t] == [t];
    } else {
      assert (arrivals + [t])[1..] == arrivals[1..] + [t];
      PollCycleSnoc(Step(strip, arrivals[0]), arrivals[1..], t);
    }
  }

  /**
   Last write wins: after a cycle the strip shows exactly the LED of the last
   arrival that has one, and is untouched when no arrival has one.
   */
  lemma {:induction false} PollCycleLastWriteWins(strip: Strip, arrivals: seq<Arrival>)
    requires |strip| == NumPixels
    ensures LastMappedPosition(arrivals) == NotFound ==> PollCycle(strip, arrivals) == strip
    ensures LastMappedPosition(arrivals) != NotFound ==>
      PollCycle(strip, arrivals) == LightUpLed(strip, LastMappedPosition(arrivals))
    decreases |arrivals|
  {
    if |arrivals| > 0 {
      var n := |arrivals| - 1;
      var init := arrivals[..n];
      assert arrivals == init + [arrivals[n]];
      PollCycleSnoc(strip, init, arrivals[n]);
      PollCycleLastWriteWins(strip, init);
      if !HasPosition(arrivals[n]) && LastMappedPosition(init) != NotFound {
        LightUpLedForgetsPrior(PollCycle(strip, init), strip, LastMappedPosition(init));
      } else if HasPosition(arrivals[n]) {
        LightUpLedForgetsPrior(PollCycle(strip, init), strip, GetTrainPosition(arrivals[n].stationName));
      }
    }
  }

  /**
   The polling loop's body as written, a `for` over the arrivals of one cycle;
   its outcome is stated against the reference, not the fold.
   */
  method RunPollCycle(strip: Strip, arrivals: seq<Arrival>) returns (r: Strip)
    requires |strip| == NumPixels
    ensures |r| == NumPixels
    ensures LastMappedPosition(arrivals) == NotFound ==> r == strip
    ensures LastMappedPosition(arrivals) != NotFound ==>
      r == LightUpLed(strip, LastMappedPosition(arrivals))
  {
    r := strip;
    for i := 0 to |arrivals|
      invariant |r| == NumPixels
      invariant LastMappedPosition(arrivals[..i]) == NotFound ==> r == strip
      invariant LastMappedPosition(arrivals[..i]) != NotFound ==>
        r == LightUpLed(strip, LastMappedPosition(arrivals[..i]))
    {
      var stationName := arrivals[i].stationName;
      var ledPosition := GetTrainPosition(stationName);
      if ledPosition != NotFound {
        LightUpLedForgetsPrior(r, strip, ledPosition);
        r := LightUpLed(r, ledPosition);
      }
      assert arrivals[..i + 1][..i] == arrivals[..i];
    }
    assert arrivals[..|arrivals|] == arrivals;
  }

  // ---------------------------------------------------------------------------
  // Scenarios

  /** A single arrival at Oxford Circus lights LED 5 only. */
  lemma ScenarioSingleArrival(strip: Strip)
    requires |strip| == NumPixels
    ensures LitPositions(PollCycle(strip, [Arrival("Oxford Circus", "Epping", 120)])) == {5}
  {
  }

  /** Oxford Circus then Bank: Bank, processed last, stays lit. */
  lemma ScenarioLastWriteWins(strip: Strip)
    requires |strip| == NumPixels
    ensures LitPositions(PollCycle(strip,
      [Arrival("Oxford Circus", "Epping", 120), Arrival("Bank", "Ealing Broadway", 60)])) == {10}
  {
  }

  /** A failed fetch yields no arrivals, and the cycle leaves the strip alone. */
  lemma ScenarioNoArrivals(strip: Strip)
    requires |strip| == NumPixels
    ensures PollCycle(strip, []) == strip
  {
  }
}
