/**
 The station filter of the transit API client: arrival records returned by
 the arrivals endpoint are narrowed to those whose station name equals a
 target name, ignoring case. Fetching the records is not modelled; they are
 given as a sequence.
 */
module TflApi {
  import opened AsciiText

  /** One line-item of real-time arrival data (`timeToStation` in seconds). */
  datatype Arrival = Arrival(stationName: string, destinationName: string, timeToStation: int)

  /** The filter's test: the record's station name equals the target, ignoring case. */
  predicate AtStation(t: Arrival, stationName: string) {
    Lower(t.stationName) == Lower(stationName)
  }

  /** `a` can be obtained from `b` by deleting elements, keeping the order of the rest. */
  predicate IsSubsequence<T(==)>(a: seq<T>, b: seq<T>)
    decreases |b|
  {
    || |a| == 0
    || (&& |b| > 0
        && (|| (a[0] == b[0] && IsSubsequence(a[1..], b[1..]))
            || IsSubsequence(a, b[1..])))
  }

  /** The arrivals of `data` at `stationName`, in their original order. */
  function FilterTrainData(data: seq<Arrival>, stationName: string): (r: seq<Arrival>)
    ensures |r| <= |data|
    ensures forall t :: t in r ==> t in data && AtStation(t, stationName)
    ensures forall t :: t in data && AtStation(t, stationName) ==> t in r
  {
    if |data| == 0 then []
    else
      var rest := FilterTrainData(data[1..], stationName);
      if AtStation(data[0], stationName) then [data[0]] + rest else rest
  }

  /** The result keeps the relative order of the input: it is a subsequence of it. */
  lemma {:induction false} FilterIsSubsequence(data: seq<Arrival>, stationName: string)
    ensures IsSubsequence(FilterTrainData(data, stationName), data)
  {
    if |data| > 0 {
      FilterIsSubsequence(data[1..], stationName);
      var r := FilterTrainData(data, stationName);
      if !AtStation(data[0], stationName) && |r| > 0 {
        assert r == FilterTrainData(data[1..], stationName);
      }
    }
  }

  /**
   Every matching record occurs in the result exactly as often as in the
   input, and no other record occurs at all.
   */
  lemma {:induction false} FilterCounts(data: seq<Arrival>, stationName: string, t: Arrival)
    ensures multiset(FilterTrainData(data, stationName))[t]
            == if AtStation(t, stationName) then multiset(data)[t] else 0
  {
    if |data| > 0 {
      FilterCounts(data[1..], stationName, t);
      assert data == [data[0]] + data[1..];
    }
  }

  /** Filtering a concatenation is concatenating the filtered halves. */
  lemma {:induction false} FilterConcat(a: seq<Arrival>, b: seq<Arrival>, stationName: string)
    ensures FilterTrainData(a + b, stationName)
            == FilterTrainData(a, stationName) + FilterTrainData(b, stationName)
  {
    if |a| == 0 {
      assert a + b == b;
    } else {
      var ab := a + b;
      assert ab[0] == a[0];
      assert ab[1..] == a[1..] + b;
      FilterConcat(a[1..], b, stationName);
      var head: seq<Arrival> := if AtStation(a[0], stationName) then [a[0]] else [];
      assert FilterTrainData(ab, stationName) == head + FilterTrainData(ab[1..], stationName);
      assert FilterTrainData(a, stationName) == head + FilterTrainData(a[1..], stationName);
    }
  }

  /** Filtering an already filtered list for the same station changes nothing. */
  lemma {:induction false} FilterIdempotent(data: seq<Arrival>, stationName: string)
    ensures FilterTrainData(FilterTrainData(data, stationName), stationName)
            == FilterTrainData(data, stationName)
  {
    if |data| > 0 {
      FilterIdempotent(data[1..], stationName);
      var rest := FilterTrainData(data[1..], stationName);
      if AtStation(data[0], stationName) {
        assert ([data[0]] + rest)[1..] == rest;
      }
    }
  }

  /** Two targets that agree after lower-casing select the same records. */
  lemma {:induction false} FilterCaseInsensitive(data: seq<Arrival>, s1: string, s2: string)
    requires Lower(s1) == Lower(s2)
    ensures FilterTrainData(data, s1) == FilterTrainData(data, s2)
  {
    if |data| > 0 {
      FilterCaseInsensitive(data[1..], s1, s2);
    }
  }

  /** In particular, lower-casing the target first gives the same result. */
  lemma FilterLoweredTarget(data: seq<Arrival>, stationName: string)
    ensures FilterTrainData(data, Lower(stationName)) == FilterTrainData(data, stationName)
  {
  }

  /** An empty target selects nothing from records that all carry a station name. */
  lemma {:induction false} FilterEmptyName(data: seq<Arrival>)
    requires forall i :: 0 <= i < |data| ==> data[i].stationName != []
    ensures FilterTrainData(data, "") == []
  {
    if |data| > 0 {
      LowerEmpty(data[0].stationName);
      FilterEmptyName(data[1..]);
    }
  }
}
