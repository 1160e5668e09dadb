/**
 * The timing model of `GameState::beat_to_time`: a tempo map and a pause
 * map, each a set of (beat, value) entries, turn a beat position into
 * seconds. The tempo map starts at 120 BPM from beat 0; each breakpoint at
 * or before the target beat closes the running segment and adopts its BPM;
 * every pause at or before the target beat adds its whole duration.
 */
module Timing {
  import opened Wrappers

  /**
   * The `HashMap<OrderedFloat<f64>, f64>` of the source, held as entries in
   * strictly ascending beat order: keys are unique, and walking the sequence
   * is the ascending traversal that `beat_to_time` obtains by sorting.
   */
  type Schedule = seq<(real, real)>

  predicate Ascending(m: Schedule) {
    forall i, j :: 0 <= i < j < |m| ==> m[i].0 < m[j].0
  }

  /** Every beat of `m` lies above `x`. */
  predicate Above(m: Schedule, x: real) {
    forall i :: 0 <= i < |m| ==> x < m[i].0
  }

  function Lookup(m: Schedule, beat: real): Option<real> {
    if m == [] then None
    else if m[0].0 == beat then Some(m[0].1)
    else Lookup(m[1..], beat)
  }

  lemma {:induction false} LookupAbove(m: Schedule, beat: real)
    requires Above(m, beat)
    ensures Lookup(m, beat).None?
  {
    if m != [] {
      LookupAbove(m[1..], beat);
    }
  }

  /** `HashMap::insert`: a new key is added, an existing key gets the new value. */
  function Insert(m: Schedule, beat: real, value: real): (r: Schedule)
    requires Ascending(m)
    ensures Ascending(r)
    ensures Lookup(r, beat) == Some(value)
    ensures forall b :: b != beat ==> Lookup(r, b) == Lookup(m, b)
    ensures |r| == if Lookup(m, beat).Some? then |m| else |m| + 1
    ensures forall x :: Above(m, x) && x < beat ==> Above(r, x)
  {
    if m == [] || beat < m[0].0 then
      LookupAbove(m, beat);
      [(beat, value)] + m
    else if beat == m[0].0 then
      [(beat, value)] + m[1..]
    else
      assert Above(m[1..], m[0].0);
      [m[0]] + Insert(m[1..], beat, value)
  }

  predicate NonZeroTempo(tempo: Schedule) {
    forall i :: 0 <= i < |tempo| ==> tempo[i].1 != 0.0
  }

  predicate PositiveTempo(tempo: Schedule) {
    forall i :: 0 <= i < |tempo| ==> tempo[i].1 > 0.0
  }

  predicate NonNegativePauses(stops: Schedule) {
    forall i :: 0 <= i < |stops| ==> stops[i].1 >= 0.0
  }

  predicate NonNegativeBeats(m: Schedule) {
    forall i :: 0 <= i < |m| ==> m[i].0 >= 0.0
  }

  /** Seconds taken by the beats from `fromBeat` to `toBeat` at `bpm` beats per minute. */
  function Span(fromBeat: real, toBeat: real, bpm: real): real
    requires bpm != 0.0
  {
    (toBeat - fromBeat) * (60.0 / bpm)
  }

  /**
   * The time at `beat` when the walk has reached `time` seconds at
   * `lastBeat` with `lastBpm` in force and `tempo` still ahead of it.
   */
  function Walk(tempo: Schedule, beat: real, time: real, lastBeat: real, lastBpm: real): real
    requires lastBpm != 0.0 && NonZeroTempo(tempo)
    decreases |tempo|
  {
    if tempo == [] || beat < tempo[0].0 then
      time + Span(lastBeat, beat, lastBpm)
    else
      Walk(tempo[1..], beat, time + Span(lastBeat, tempo[0].0, lastBpm), tempo[0].0, tempo[0].1)
  }

  /** Sum of the pause durations at beats up to and including `beat`. */
  function PauseUpTo(stops: Schedule, beat: real): real {
    if stops == [] then 0.0
    else (if stops[0].0 <= beat then stops[0].1 else 0.0) + PauseUpTo(stops[1..], beat)
  }

  /** Seconds at `beat`: the tempo walk from (beat 0, `offset`, 120 BPM) plus the pauses. */
  function BeatTime(beat: real, tempo: Schedule, offset: real, stops: Schedule): real
    requires NonZeroTempo(tempo)
  {
    Walk(tempo, beat, offset, 0.0, 120.0) + PauseUpTo(stops, beat)
  }

  /** `beat_to_time`: the two accumulator loops of the source. */
  method BeatToTime(beat: real, tempo: Schedule, offset: real, stops: Schedule) returns (time: real)
    requires NonZeroTempo(tempo)
    ensures time == BeatTime(beat, tempo, offset, stops)
  {
    var lastTime, lastBeat, lastBpm := offset, 0.0, 120.0;
    var i := 0;
    while i < |tempo|
      invariant 0 <= i <= |tempo|
      invariant lastBpm != 0.0 && NonZeroTempo(tempo[i..])
      invariant Walk(tempo[i..], beat, lastTime, lastBeat, lastBpm) == Walk(tempo, beat, offset, 0.0, 120.0)
    {
      var bpmBeat, bpm := tempo[i].0, tempo[i].1;
      if beat < bpmBeat {
        break;
      }
      assert tempo[i..][1..] == tempo[i + 1..] && tempo[i..][0] == tempo[i];
      WalkStep(tempo[i..], beat, lastTime, lastBeat, lastBpm);
      lastTime := lastTime + Span(lastBeat, bpmBeat, lastBpm);
      lastBeat := bpmBeat;
      lastBpm := bpm;
      i := i + 1;
    }
    assert Walk(tempo[i..], beat, lastTime, lastBeat, lastBpm) == lastTime + Span(lastBeat, beat, lastBpm);
    ghost var walked := lastTime;

    var j := 0;
    while j < |stops|
      invariant 0 <= j <= |stops|
      invariant lastTime + PauseUpTo(stops[j..], beat) == walked + PauseUpTo(stops, beat)
    {
      var (stopBeat, stopDuration) := stops[j];
      assert stops[j..][1..] == stops[j + 1..];
      if stopBeat <= beat {
        lastTime := lastTime + stopDuration;
      }
      j := j + 1;
    }
    time := lastTime + Span(lastBeat, beat, lastBpm);
  }

  // ---------------------------------------------------------------------
  // Properties of the timing model

  /** With neither tempo entries nor pauses the chart runs at 120 BPM from `offset`. */
  lemma DefaultTempo(beat: real, offset: real)
    ensures BeatTime(beat, [], offset, []) == offset + beat * 60.0 / 120.0
  {
  }

  /** Four beats at a constant 120 BPM from offset 0 take exactly two seconds. */
  lemma FourBeatsAt120()
    ensures BeatTime(4.0, [(0.0, 120.0)], 0.0, []) == 2.0
  {
  }

  /** The entries of `m` at beats up to and including `beat`. */
  function Through(m: Schedule, beat: real): (r: Schedule)
    ensures |r| <= |m|
  {
    if m == [] then []
    else (if m[0].0 <= beat then [m[0]] else []) + Through(m[1..], beat)
  }

  lemma {:induction false} ThroughNone(m: Schedule, beat: real)
    requires Above(m, beat)
    ensures Through(m, beat) == []
  {
    if m != [] {
      ThroughNone(m[1..], beat);
    }
  }

  lemma {:induction false} ThroughKeepsOrder(m: Schedule, beat: real)
    requires Ascending(m) && NonZeroTempo(m)
    ensures Ascending(Through(m, beat)) && NonZeroTempo(Through(m, beat))
    ensures m != [] && m[0].0 <= beat ==> Through(m, beat) == [m[0]] + Through(m[1..], beat)
  {
    if m != [] {
      ThroughKeepsOrder(m[1..], beat);
      var rest := Through(m[1..], beat);
      ThroughSubset(m[1..], beat);
      if m[0].0 <= beat {
        assert Above(m[1..], m[0].0);
        assert Above(rest, m[0].0);
      }
    }
  }

  lemma {:induction false} ThroughSubset(m: Schedule, beat: real)
    ensures forall x :: Above(m, x) ==> Above(Through(m, beat), x)
    ensures forall i :: 0 <= i < |Through(m, beat)| ==> exists j :: 0 <= j < |m| && Through(m, beat)[i] == m[j]
  {
    if m != [] {
      ThroughSubset(m[1..], beat);
      var head := if m[0].0 <= beat then [m[0]] else [];
      var rest := Through(m[1..], beat);
      assert Through(m, beat) == head + rest;
      forall i | 0 <= i < |Through(m, beat)|
        ensures exists j :: 0 <= j < |m| && Through(m, beat)[i] == m[j]
      {
        if i < |head| {
          assert Through(m, beat)[i] == m[0];
        } else {
          var j :| 0 <= j < |m[1..]| && rest[i - |head|] == m[1..][j];
          assert Through(m, beat)[i] == m[j + 1];
        }
      }
    }
  }

  lemma {:induction false} WalkThrough(tempo: Schedule, beat: real, time: real, lastBeat: real, lastBpm: real)
    requires Ascending(tempo) && NonZeroTempo(tempo) && lastBpm != 0.0
    ensures NonZeroTempo(Through(tempo, beat))
    ensures Walk(tempo, beat, time, lastBeat, lastBpm) == Walk(Through(tempo, beat), beat, time, lastBeat, lastBpm)
  {
    ThroughKeepsOrder(tempo, beat);
    if tempo != [] {
      if beat < tempo[0].0 {
        assert Above(tempo, beat);
        ThroughNone(tempo, beat);
      } else {
        WalkThrough(tempo[1..], beat, time + Span(lastBeat, tempo[0].0, lastBpm), tempo[0].0, tempo[0].1);
        assert ([tempo[0]] + Through(tempo[1..], beat))[1..] == Through(tempo[1..], beat);
      }
    }
  }

  lemma {:induction false} PauseThrough(stops: Schedule, beat: real)
    ensures PauseUpTo(stops, beat) == PauseUpTo(Through(stops, beat), beat)
  {
    if stops != [] {
      PauseThrough(stops[1..], beat);
      if stops[0].0 <= beat {
        assert ([stops[0]] + Through(stops[1..], beat))[1..] == Through(stops[1..], beat);
      } else {
        assert Through(stops, beat) == Through(stops[1..], beat);
      }
    }
  }

  /**
   * Tempo breakpoints and pauses at beats after the target have no effect;
   * those exactly at the target take part.
   */
  lemma LaterEntriesIgnored(beat: real, tempo: Schedule, offset: real, stops: Schedule)
    requires Ascending(tempo) && NonZeroTempo(tempo)
    ensures NonZeroTempo(Through(tempo, beat))
    ensures BeatTime(beat, tempo, offset, stops) == BeatTime(beat, Through(tempo, beat), offset, Through(stops, beat))
  {
    WalkThrough(tempo, beat, offset, 0.0, 120.0);
    PauseThrough(stops, beat);
  }

  lemma {:induction false} PauseAppend(stops: Schedule, beat: real, stopBeat: real, duration: real)
    ensures PauseUpTo(stops + [(stopBeat, duration)], beat)
         == PauseUpTo(stops, beat) + (if stopBeat <= beat then duration else 0.0)
  {
    if stops != [] {
      assert (stops + [(stopBeat, duration)])[1..] == stops[1..] + [(stopBeat, duration)];
      PauseAppend(stops[1..], beat, stopBeat, duration);
    }
  }

  /**
   * A pause at or before the target adds its full duration, whatever tempo
   * segment it falls in; a later pause adds nothing.
   */
  lemma PauseAddsFullDuration(beat: real, tempo: Schedule, offset: real, stops: Schedule, stopBeat: real, duration: real)
    requires NonZeroTempo(tempo)
    ensures BeatTime(beat, tempo, offset, stops + [(stopBeat, duration)])
         == BeatTime(beat, tempo, offset, stops) + (if stopBeat <= beat then duration else 0.0)
  {
    PauseAppend(stops, beat, stopBeat, duration);
  }

  lemma SpanMonotone(fromBeat: real, b1: real, b2: real, bpm: real)
    requires b1 <= b2 && bpm > 0.0
    ensures Span(fromBeat, b1, bpm) <= Span(fromBeat, b2, bpm)
  {
    var c := 60.0 / bpm;
    assert (b2 - fromBeat) * c - (b1 - fromBeat) * c == (b2 - b1) * c;
  }

  /** One step of the walk: a breakpoint at or before the target closes the running segment. */
  lemma WalkStep(tempo: Schedule, beat: real, time: real, lastBeat: real, lastBpm: real)
    requires lastBpm != 0.0 && NonZeroTempo(tempo) && tempo != [] && tempo[0].0 <= beat
    ensures Walk(tempo, beat, time, lastBeat, lastBpm)
         == Walk(tempo[1..], beat, time + Span(lastBeat, tempo[0].0, lastBpm), tempo[0].0, tempo[0].1)
  {
  }

  lemma {:induction false} WalkMonotone(tempo: Schedule, b1: real, b2: real, time: real, lastBeat: real, lastBpm: real)
    requires Ascending(tempo) && PositiveTempo(tempo) && lastBpm > 0.0 && b1 <= b2
    ensures Walk(tempo, b1, time, lastBeat, lastBpm) <= Walk(tempo, b2, time, lastBeat, lastBpm)
    decreases |tempo|
  {
    assert NonZeroTempo(tempo);
    if tempo == [] || b2 < tempo[0].0 {
      SpanMonotone(lastBeat, b1, b2, lastBpm);
    } else {
      var k, bpm := tempo[0].0, tempo[0].1;
      assert PositiveTempo(tempo[1..]) && Ascending(tempo[1..]);
      var next := time + Span(lastBeat, k, lastBpm);
      WalkStep(tempo, b2, time, lastBeat, lastBpm);
      if b1 < k {
        SpanMonotone(lastBeat, b1, k, lastBpm);
        assert Walk(tempo, b1, time, lastBeat, lastBpm) <= next;
        if tempo[1..] != [] {
          assert k < tempo[1..][0].0;
        }
        assert Walk(tempo[1..], k, next, k, bpm) == next;
        WalkMonotone(tempo[1..], k, b2, next, k, bpm);
      } else {
        WalkStep(tempo, b1, time, lastBeat, lastBpm);
        WalkMonotone(tempo[1..], b1, b2, next, k, bpm);
      }
    }
  }

  lemma {:induction false} PauseMonotone(stops: Schedule, b1: real, b2: real)
    requires NonNegativePauses(stops) && b1 <= b2
    ensures PauseUpTo(stops, b1) <= PauseUpTo(stops, b2)
  {
    if stops != [] {
      PauseMonotone(stops[1..], b1, b2);
    }
  }

  /** With positive tempos and non-negative pauses, time never runs backwards as the beat grows. */
  lemma BeatTimeMonotone(b1: real, b2: real, tempo: Schedule, offset: real, stops: Schedule)
    requires Ascending(tempo) && PositiveTempo(tempo) && NonNegativePauses(stops)
    requires b1 <= b2
    ensures BeatTime(b1, tempo, offset, stops) <= BeatTime(b2, tempo, offset, stops)
  {
    WalkMonotone(tempo, b1, b2, offset, 0.0, 120.0);
    PauseMonotone(stops, b1, b2);
  }

  lemma {:induction false} WalkAtStart(tempo: Schedule, time: real, lastBeat: real, lastBpm: real)
    requires Ascending(tempo) && NonZeroTempo(tempo) && lastBpm != 0.0
    requires forall i :: 0 <= i < |tempo| ==> tempo[i].0 >= lastBeat
    ensures Walk(tempo, lastBeat, time, lastBeat, lastBpm) == time
    decreases |tempo|
  {
    if tempo != [] && tempo[0].0 <= lastBeat {
      WalkAtStart(tempo[1..], time, lastBeat, tempo[0].1);
    }
  }

  /** Beat 0 is at `offset` when no breakpoint lies before beat 0 and there are no pauses. */
  lemma BeatZeroIsOffset(tempo: Schedule, offset: real)
    requires Ascending(tempo) && NonZeroTempo(tempo) && NonNegativeBeats(tempo)
    ensures BeatTime(0.0, tempo, offset, []) == offset
  {
    WalkAtStart(tempo, offset, 0.0, 120.0);
  }

  lemma {:induction false} PauseNonNegative(stops: Schedule, beat: real)
    requires NonNegativePauses(stops)
    ensures PauseUpTo(stops, beat) >= 0.0
  {
    if stops != [] {
      PauseNonNegative(stops[1..], beat);
    }
  }

  /**
   * With positive tempos, breakpoints at non-negative beats and non-negative
   * pauses, no beat from 0 on is placed before `offset`.
   */
  lemma NoTimeBeforeOffset(beat: real, tempo: Schedule, offset: real, stops: Schedule)
    requires Ascending(tempo) && PositiveTempo(tempo) && NonNegativeBeats(tempo) && NonNegativePauses(stops)
    requires 0.0 <= beat
    ensures offset <= BeatTime(beat, tempo, offset, stops)
  {
    BeatTimeMonotone(0.0, beat, tempo, offset, stops);
    WalkAtStart(tempo, offset, 0.0, 120.0);
    PauseNonNegative(stops, 0.0);
  }
}
