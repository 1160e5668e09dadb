/**
 * The play loop of `main.rs` without its drawing and audio: the key events
 * that keep the pressed (this frame) and held (until released) lane sets,
 * the clock reading of a frame, the `retain` pass that judges every active
 * arrow, and the selection counter of the difficulty menu.
 */
module Play {
  import opened Wrappers
  import opened Chart

  // ---------------------------------------------------------------------
  // Input

  /** The keys the game reacts to; every other key code is `OtherKey`. */
  datatype Key = D | F | J | K | Escape | Up | Down | Return | OtherKey(code: int)

  /** The window events of a frame; `None` is an event without a key code. */
  datatype Event = Quit | KeyDown(key: Option<Key>) | KeyUp(key: Option<Key>) | OtherEvent

  /** The `key_to_lane` table: D, F, J and K play lanes 0 to 3. */
  function LaneOf(k: Key): (r: Option<nat>)
    ensures r.Some? <==> k in {D, F, J, K}
    ensures r.Some? ==> r.value < 4
  {
    match k
    case D => Some(0)
    case F => Some(1)
    case J => Some(2)
    case K => Some(3)
    case _ => None
  }

  /** Lanes pressed this frame and lanes held down. */
  datatype Input = Input(pressed: set<nat>, held: set<nat>)

  /** Events that end the game: closing the window or pressing Escape. */
  predicate Quits(e: Event) {
    e == Quit || e == KeyDown(Some(Escape))
  }

  /** One event that does not end the game. */
  function ApplyEvent(s: Input, e: Event): (r: Input)
    requires !Quits(e)
    ensures (e.KeyDown? || e.KeyUp?) && e.key.Some? && LaneOf(e.key.value).Some? ==>
      var lane := LaneOf(e.key.value).value;
      && (e.KeyDown? && lane !in s.held ==> r == Input(s.pressed + {lane}, s.held + {lane}))
      && (e.KeyDown? && lane in s.held ==> r == s)
      && (e.KeyUp? ==> r == Input(s.pressed - {lane}, s.held - {lane}))
    ensures !((e.KeyDown? || e.KeyUp?) && e.key.Some? && LaneOf(e.key.value).Some?) ==> r == s
  {
    match e
    case KeyDown(Some(k)) =>
      (match LaneOf(k)
       case Some(lane) => if lane !in s.held then Input(s.pressed + {lane}, s.held + {lane}) else s
       case None => s)
    case KeyUp(Some(k)) =>
      (match LaneOf(k)
       case Some(lane) => Input(s.pressed - {lane}, s.held - {lane})
       case None => s)
    case _ => s
  }

  /**
   * The event loop of a frame: whether it ended the game, and the input
   * after the events up to the first quitting one. Pressed lanes start empty.
   */
  function Polled(events: seq<Event>, held: set<nat>): (bool, Input) {
    if events == [] then (false, Input({}, held))
    else
      var (quit, s) := Polled(events[..|events| - 1], held);
      var e := events[|events| - 1];
      if quit then (quit, s)
      else if Quits(e) then (true, s)
      else (false, ApplyEvent(s, e))
  }

  lemma PolledStep(events: seq<Event>, held: set<nat>, i: nat)
    requires i < |events|
    ensures Polled(events[..i + 1], held)
         == var (quit, s) := Polled(events[..i], held);
            if quit then (quit, s)
            else if Quits(events[i]) then (true, s)
            else (false, ApplyEvent(s, events[i]))
  {
    assert events[..i + 1][..i] == events[..i];
  }

  /** The `poll_iter` loop of a frame, from the held set of the frame before. */
  method PollInput(events: seq<Event>, held0: set<nat>) returns (quit: bool, pressed: set<nat>, held: set<nat>)
    ensures (quit, Input(pressed, held)) == Polled(events, held0)
  {
    quit := false;
    pressed := {};
    held := held0;
    var i := 0;
    while i < |events|
      invariant 0 <= i <= |events|
      invariant (false, Input(pressed, held)) == Polled(events[..i], held0)
    {
      var e := events[i];
      PolledStep(events, held0, i);
      if Quits(e) {
        quit := true;
        QuitSticks(events, held0, i + 1);
        return;
      }
      match e {
        case KeyDown(Some(k)) =>
          match LaneOf(k) {
            case Some(lane) =>
              if lane !in held {
                pressed := pressed + {lane};
                held := held + {lane};
              }
            case None =>
          }
        case KeyUp(Some(k)) =>
          match LaneOf(k) {
            case Some(lane) =>
              pressed := pressed - {lane};
              held := held - {lane};
            case None =>
          }
        case _ =>
      }
      i := i + 1;
    }
    assert events[..i] == events;
  }

  /** Once an event has ended the game, the events after it change nothing. */
  lemma {:induction false} QuitSticks(events: seq<Event>, held: set<nat>, k: nat)
    requires k <= |events| && Polled(events[..k], held).0
    ensures Polled(events, held) == Polled(events[..k], held)
    decreases |events| - k
  {
    if k < |events| {
      PolledStep(events, held, k);
      QuitSticks(events, held, k + 1);
    } else {
      assert events[..k] == events;
    }
  }

  /** The lanes pressed in a frame are among the lanes held, and all are lanes 0 to 3. */
  lemma {:induction false} PressedWithinHeld(events: seq<Event>, held: set<nat>)
    requires forall lane :: lane in held ==> lane < 4
    ensures Polled(events, held).1.pressed <= Polled(events, held).1.held
    ensures forall lane :: lane in Polled(events, held).1.held ==> lane < 4
  {
    if events != [] {
      PressedWithinHeld(events[..|events| - 1], held);
    }
  }

  // ---------------------------------------------------------------------
  // The clock

  /** `Instant::elapsed` in seconds: the time since `start`, or 0 while `start` lies ahead. */
  function Elapsed(start: real, now: real): (r: real)
    ensures r >= 0.0
    ensures now >= start ==> r == now - start
    ensures now <= start ==> r == 0.0
  {
    if now > start then now - start else 0.0
  }

  /** The game clock never runs backwards. */
  lemma ElapsedMonotone(start: real, now1: real, now2: real)
    requires now1 <= now2
    ensures Elapsed(start, now1) <= Elapsed(start, now2)
  {
  }

  // ---------------------------------------------------------------------
  // Integer casts of the hold geometry

  const I32Min: int := -0x8000_0000
  const I32Max: int := 0x7fff_ffff
  const U32Max: int := 0xffff_ffff
  const Two32: int := 0x1_0000_0000

  /** A real rounded toward zero. */
  function Trunc(x: real): (r: int)
    ensures x >= 0.0 ==> r as real <= x < r as real + 1.0
    ensures x < 0.0 ==> r as real - 1.0 < x <= r as real
  {
    if x >= 0.0 then x.Floor else -((-x).Floor)
  }

  /** `f64 as i32`: rounded toward zero, then saturated to the `i32` range. */
  function F64ToI32(x: real): (r: int)
    ensures I32Min <= r <= I32Max
    ensures I32Min <= Trunc(x) <= I32Max ==> r == Trunc(x)
    ensures Trunc(x) < I32Min ==> r == I32Min
    ensures Trunc(x) > I32Max ==> r == I32Max
  {
    var t := Trunc(x);
    if t < I32Min then I32Min else if t > I32Max then I32Max else t
  }

  /** `f64 as u32`: rounded toward zero, then saturated to the `u32` range. */
  function F64ToU32(x: real): (r: int)
    ensures 0 <= r <= U32Max
    ensures 0 <= Trunc(x) <= U32Max ==> r == Trunc(x)
    ensures Trunc(x) < 0 ==> r == 0
    ensures Trunc(x) > U32Max ==> r == U32Max
  {
    var t := Trunc(x);
    if t < 0 then 0 else if t > U32Max then U32Max else t
  }

  /** `i32` wrap-around: the `i32` value congruent to `x` modulo 2^32. */
  function WrapI32(x: int): (r: int)
    ensures I32Min <= r <= I32Max
    ensures (r - x) % Two32 == 0
    ensures I32Min <= x <= I32Max ==> r == x
  {
    (x - I32Min) % Two32 + I32Min
  }

  /** `u32 as i32`: the same 32 bits read as a signed number. */
  function U32ToI32(h: int): (r: int)
    requires 0 <= h <= U32Max
    ensures I32Min <= r <= I32Max
    ensures (r - h) % Two32 == 0
  {
    WrapI32(h)
  }

  // ---------------------------------------------------------------------
  // Judging one arrow

  /** Screen rows where arrows appear and where they should be hit. */
  const SpawnY: real := -50.0
  const JudgmentLineY: real := 550.0

  /** How far an arrow has travelled from its spawn row towards the judgment line. */
  function Progress(a: Arrow, elapsed: real): real
    requires a.hitTime != a.spawnTime
  {
    (elapsed - a.spawnTime) / (a.hitTime - a.spawnTime)
  }

  /** The arrow's screen row: the spawn row at its spawn time, the judgment line at its hit time. */
  function YPos(a: Arrow, elapsed: real): (y: real)
    requires a.hitTime != a.spawnTime
    ensures elapsed == a.spawnTime ==> y == SpawnY
    ensures elapsed == a.hitTime ==> y == JudgmentLineY
  {
    SpawnY + Progress(a, elapsed) * (JudgmentLineY - SpawnY)
  }

  /** An arrow that travels forward moves down the screen as time passes. */
  lemma YPosMonotone(a: Arrow, e1: real, e2: real)
    requires a.spawnTime < a.hitTime && e1 <= e2
    ensures YPos(a, e1) <= YPos(a, e2)
  {
    var d := a.hitTime - a.spawnTime;
    assert (e1 - a.spawnTime) / d <= (e2 - a.spawnTime) / d;
  }

  function Abs(x: real): real {
    if x < 0.0 then -x else x
  }

  /** Points for a hit `distance` pixels from the judgment line. */
  function Points(distance: real): (p: int)
    ensures 100 <= p <= 500
    ensures p == 500 <==> distance < 5.0
    ensures p == 100 <==> distance >= 20.0
  {
    if distance < 5.0 then 500
    else if distance < 10.0 then 300
    else if distance < 20.0 then 200
    else 100
  }

  /** A hit nearer the line is never worth less, and every hit is worth 100 to 500. */
  lemma PointsByDistance(d1: real, d2: real)
    requires d1 <= d2
    ensures Points(d1) >= Points(d2)
    ensures 100 <= Points(d2) <= Points(d1) <= 500
  {
  }

  /** A hold's length in the arrow's travel: its duration scaled by the travel per unit of time. */
  function BarLength(a: Arrow): real
    requires a.hitTime != a.spawnTime
  {
    ((a.endTime - a.hitTime) / (a.hitTime - a.spawnTime)) * (JudgmentLineY - SpawnY)
  }

  /**
   * The top row of a hold's bar: the arrow's row as `i32` minus the bar's
   * height (the hold's length in the arrow's travel, as `u32`), in `i32`.
   */
  function RectY(a: Arrow, yPos: real): (r: int)
    requires a.hitTime != a.spawnTime
    ensures I32Min <= r <= I32Max
  {
    WrapI32(F64ToI32(yPos) - U32ToI32(F64ToU32(Abs(BarLength(a)))))
  }

  /** Whatever the operands, the bar's top is their difference reduced into the `i32` range. */
  lemma RectYWraps(a: Arrow, yPos: real)
    requires a.hitTime != a.spawnTime
    ensures (RectY(a, yPos) - (F64ToI32(yPos) - F64ToU32(Abs(BarLength(a))))) % Two32 == 0
  {
    WrapSigned(F64ToI32(yPos), F64ToU32(Abs(BarLength(a))));
  }

  /** Subtracting a `u32` read as `i32`, with wrap-around, agrees with plain subtraction modulo 2^32. */
  lemma WrapSigned(x: int, h: int)
    requires 0 <= h <= U32Max
    ensures (WrapI32(x - U32ToI32(h)) - (x - h)) % Two32 == 0
  {
    var signed := U32ToI32(h);
    var d1 := WrapI32(x - signed) - (x - signed);
    var d2 := signed - h;
    assert d1 == Two32 * (d1 / Two32);
    assert d2 == Two32 * (d2 / Two32);
    assert d1 + d2 == Two32 * (d1 / Two32 + d2 / Two32);
  }

  /** Without overflow the bar's top is the truncated row minus the truncated height. */
  lemma RectYWithoutOverflow(a: Arrow, yPos: real)
    requires a.hitTime != a.spawnTime
    requires -1000000.0 <= yPos <= 1000000.0
    requires -1000000.0 <= (a.endTime - a.hitTime) / (a.hitTime - a.spawnTime) <= 1000000.0
    ensures RectY(a, yPos) == Trunc(yPos) - Trunc(Abs(((a.endTime - a.hitTime) / (a.hitTime - a.spawnTime)) * (JudgmentLineY - SpawnY)))
  {
    var ratio := (a.endTime - a.hitTime) / (a.hitTime - a.spawnTime);
    var noteHeight := ratio * (JudgmentLineY - SpawnY);
    assert -600000000.0 <= noteHeight <= 600000000.0;
  }

  /** What judging does to the combo counter. */
  datatype ComboChange = Same | Increment | Reset

  /**
   * The outcome of judging one arrow: whether it stays active, the points
   * it earns, its effect on the combo and whether it takes its lane.
   */
  datatype Effect = Effect(keep: bool, points: int, combo: ComboChange, takes: bool)

  /** A long arrow whose lane is held, inside its hold window. */
  predicate HeldInWindow(a: Arrow, elapsed: real, held: set<nat>) {
    a.long && a.lane in held && a.hitTime <= elapsed <= a.endTime
  }

  /** A press on the arrow's lane near enough the line while the lane is still free this frame. */
  predicate Hits(a: Arrow, elapsed: real, pressed: set<nat>, held: set<nat>, taken: set<nat>)
    requires a.hitTime != a.spawnTime
  {
    && !(a.long && a.lane in held)
    && a.lane in pressed
    && Abs(YPos(a, elapsed) - JudgmentLineY) < 50.0
    && a.lane !in taken
  }

  /** The `retain` closure for one arrow, with the lanes `taken` by hits earlier in the frame. */
  function Judgment(a: Arrow, elapsed: real, pressed: set<nat>, held: set<nat>, taken: set<nat>): (r: Effect)
    requires a.hitTime != a.spawnTime
    ensures elapsed < a.spawnTime ==> r == Effect(true, 0, Same, false)
    ensures elapsed >= a.spawnTime ==> (r.takes <==> Hits(a, elapsed, pressed, held, taken))
    ensures r.takes ==> !r.keep && r.combo == Increment && r.points == Points(Abs(YPos(a, elapsed) - JudgmentLineY))
    ensures !r.takes ==> r.combo != Increment
    ensures r.points >= 0
    ensures a.long && a.lane in held ==> !r.takes && r.combo == Same
    ensures elapsed >= a.spawnTime && HeldInWindow(a, elapsed, held) ==> r.points == 5
    ensures a.long && !r.takes ==> r.combo == Same
    ensures !r.takes ==> r.points == (if elapsed >= a.spawnTime && HeldInWindow(a, elapsed, held) then 5 else 0)
    ensures !a.long && !r.takes && elapsed >= a.spawnTime ==>
      (r.keep <==> YPos(a, elapsed) < 600.0) && (r.keep <==> r.combo == Same) && r.points == 0
    ensures a.long && !r.takes && elapsed >= a.spawnTime ==>
      (r.keep <==> RectY(a, YPos(a, elapsed)) < (if HeldInWindow(a, elapsed, held) then 545 else 600))
  {
    if elapsed < a.spawnTime then Effect(true, 0, Same, false)
    else
      var y := YPos(a, elapsed);
      var longPressed := HeldInWindow(a, elapsed, held);
      if Hits(a, elapsed, pressed, held, taken) then Effect(false, Points(Abs(y - JudgmentLineY)), Increment, true)
      else if a.long then
        Effect(RectY(a, y) < (if longPressed then 545 else 600), if longPressed then 5 else 0, Same, false)
      else if y >= 600.0 then Effect(false, 0, Reset, false)
      else Effect(true, 0, Same, false)
  }

  // ---------------------------------------------------------------------
  // Judging a frame

  /** The arrows still active, the score and combo, and the lanes taken so far in the frame. */
  datatype Frame = Frame(kept: seq<Arrow>, score: int, combo: int, taken: set<nat>)

  /** What the frame looks at: its clock reading and its two lane sets. */
  datatype Sample = Sample(elapsed: real, pressed: set<nat>, held: set<nat>)

  /** Every arrow can be placed on screen: its hit time differs from its spawn time. */
  predicate Placeable(arrows: seq<Arrow>) {
    forall i :: 0 <= i < |arrows| ==> arrows[i].hitTime != arrows[i].spawnTime
  }

  function Apply(f: Frame, a: Arrow, e: Effect): Frame {
    Frame(
      if e.keep then f.kept + [a] else f.kept,
      f.score + e.points,
      match e.combo
      case Same => f.combo
      case Increment => f.combo + 1
      case Reset => 0,
      if e.takes then f.taken + {a.lane} else f.taken)
  }

  /** The `retain` pass over `arrows`, arrow by arrow, from `start`. */
  function JudgeAll(arrows: seq<Arrow>, s: Sample, start: Frame): Frame
    requires Placeable(arrows)
  {
    if arrows == [] then start
    else
      var n := |arrows| - 1;
      var f := JudgeAll(arrows[..n], s, start);
      Apply(f, arrows[n], Judgment(arrows[n], s.elapsed, s.pressed, s.held, f.taken))
  }

  /** The effect of judging arrow `i` after the arrows before it. */
  function EffectAt(arrows: seq<Arrow>, s: Sample, start: Frame, i: nat): Effect
    requires Placeable(arrows) && i < |arrows|
  {
    Judgment(arrows[i], s.elapsed, s.pressed, s.held, JudgeAll(arrows[..i], s, start).taken)
  }

  lemma JudgeStep(arrows: seq<Arrow>, s: Sample, start: Frame, i: nat)
    requires Placeable(arrows) && i < |arrows|
    ensures JudgeAll(arrows[..i + 1], s, start) == Apply(JudgeAll(arrows[..i], s, start), arrows[i], EffectAt(arrows, s, start, i))
  {
    assert arrows[..i + 1][..i] == arrows[..i];
  }

  /** The lanes marked in `taken`. */
  function TakenSet(taken: array<bool>): set<nat>
    reads taken
  {
    set lane: nat | lane < taken.Length && taken[lane]
  }

  /**
   * The `retain` pass of one frame: judge the active `arrows` at clock
   * reading `elapsed`, returning the arrows that stay, the score and the combo.
   */
  method Judge(arrows: seq<Arrow>, elapsed: real, pressed: set<nat>, held: set<nat>, score0: int, combo0: int)
    returns (kept: seq<Arrow>, score: int, combo: int)
    requires Placeable(arrows)
    requires forall lane :: lane in pressed ==> lane < 4
    ensures var f := JudgeAll(arrows, Sample(elapsed, pressed, held), Frame([], score0, combo0, {}));
      kept == f.kept && score == f.score && combo == f.combo
  {
    ghost var s := Sample(elapsed, pressed, held);
    ghost var start := Frame([], score0, combo0, {});
    var taken := new bool[4](_ => false);
    kept, score, combo := [], score0, combo0;
    assert TakenSet(taken) == {};
    for i := 0 to |arrows|
      invariant Frame(kept, score, combo, TakenSet(taken)) == JudgeAll(arrows[..i], s, start)
    {
      JudgeStep(arrows, s, start, i);
      var a := arrows[i];
      if elapsed < a.spawnTime {
        kept := kept + [a];
        continue;
      }
      var yPos := YPos(a, elapsed);
      var longPressed := false;
      if a.long && a.lane in held {
        if elapsed >= a.hitTime && elapsed <= a.endTime {
          score := score + 5;
          longPressed := true;
        }
      } else if a.lane in pressed {
        var distance := Abs(yPos - JudgmentLineY);
        if distance < 50.0 && !taken[a.lane] {
          combo := combo + 1;
          taken[a.lane] := true;
          score := score + Points(distance);
          assert TakenSet(taken) == JudgeAll(arrows[..i], s, start).taken + {a.lane};
          continue;
        }
      }
      if a.long {
        var rectY := RectY(a, yPos);
        var keep := if longPressed then rectY < 545 else rectY < 600;
        if keep {
          kept := kept + [a];
        }
      } else {
        if yPos >= 600.0 {
          combo := 0;
        } else {
          kept := kept + [a];
        }
      }
    }
    assert arrows[..|arrows|] == arrows;
  }

  // ---------------------------------------------------------------------
  // What a frame promises

  /** The score never goes down within a frame. */
  lemma {:induction false} ScoreNeverDecreases(arrows: seq<Arrow>, s: Sample, start: Frame)
    requires Placeable(arrows)
    ensures JudgeAll(arrows, s, start).score >= start.score
  {
    if arrows != [] {
      ScoreNeverDecreases(arrows[..|arrows| - 1], s, start);
    }
  }

  /** Lanes once taken stay taken for the rest of the frame. */
  lemma {:induction false} TakenGrows(arrows: seq<Arrow>, s: Sample, start: Frame, k: nat)
    requires Placeable(arrows) && k <= |arrows|
    ensures JudgeAll(arrows[..k], s, start).taken <= JudgeAll(arrows, s, start).taken
  {
    if k < |arrows| {
      var n := |arrows| - 1;
      assert arrows[..n][..k] == arrows[..k];
      TakenGrows(arrows[..n], s, start, k);
    } else {
      assert arrows[..k] == arrows;
    }
  }

  /**
   * At most one arrow per lane is hit in a frame: once a press has been
   * used, later arrows in that lane are not hit.
   */
  lemma OneHitPerLane(arrows: seq<Arrow>, s: Sample, start: Frame, i: nat, j: nat)
    requires Placeable(arrows) && i < j < |arrows|
    requires EffectAt(arrows, s, start, i).takes
    ensures !EffectAt(arrows, s, start, j).takes || arrows[j].lane != arrows[i].lane
  {
    JudgeStep(arrows, s, start, i);
    assert arrows[..j][..i + 1] == arrows[..i + 1];
    TakenGrows(arrows[..j], s, start, i + 1);
  }

  /** `xs` is `ys` with some elements left out, the rest unchanged and in order. */
  predicate Subsequence<T(==)>(xs: seq<T>, ys: seq<T>)
    decreases |ys|
  {
    xs == [] || (ys != [] &&
      if xs[|xs| - 1] == ys[|ys| - 1] then Subsequence(xs[..|xs| - 1], ys[..|ys| - 1])
      else Subsequence(xs, ys[..|ys| - 1]))
  }

  lemma {:induction false} SubsequenceDropLast<T>(xs: seq<T>, ys: seq<T>)
    requires xs != [] && Subsequence(xs, ys)
    ensures Subsequence(xs[..|xs| - 1], ys)
    decreases |ys|, 0
  {
    var m := |ys| - 1;
    if xs[|xs| - 1] == ys[m] {
      SubsequenceExtend(xs[..|xs| - 1], ys[..m], ys[m]);
      assert ys[..m] + [ys[m]] == ys;
    } else {
      SubsequenceDropLast(xs, ys[..m]);
      SubsequenceExtend(xs[..|xs| - 1], ys[..m], ys[m]);
      assert ys[..m] + [ys[m]] == ys;
    }
  }

  lemma {:induction false} SubsequenceExtend<T>(xs: seq<T>, ys: seq<T>, y: T)
    requires Subsequence(xs, ys)
    ensures Subsequence(xs, ys + [y])
    decreases |ys|, 1
  {
    var ys' := ys + [y];
    assert ys'[..|ys|] == ys;
    if xs != [] && xs[|xs| - 1] == y {
      SubsequenceDropLast(xs, ys);
    }
  }

  /** The arrows that survive a frame are some of the arrows before it, unchanged and in order. */
  lemma {:induction false} SurvivorsInOrder(arrows: seq<Arrow>, s: Sample, score: int, combo: int)
    requires Placeable(arrows)
    ensures Subsequence(JudgeAll(arrows, s, Frame([], score, combo, {})).kept, arrows)
  {
    if arrows != [] {
      var n := |arrows| - 1;
      var start := Frame([], score, combo, {});
      var before := JudgeAll(arrows[..n], s, start).kept;
      SurvivorsInOrder(arrows[..n], s, score, combo);
      SubsequenceExtend(before, arrows[..n], arrows[n]);
      assert arrows[..n] + [arrows[n]] == arrows;
      var after := JudgeAll(arrows, s, start).kept;
      if after != before {
        assert after == before + [arrows[n]];
        assert after[..|after| - 1] == before;
      }
    }
  }

  /** With the lanes of a polled frame, no long arrow is ever hit by a press. */
  lemma LongArrowsNeverHit(events: seq<Event>, held0: set<nat>, arrows: seq<Arrow>, elapsed: real,
                           score0: int, combo0: int, i: nat)
    requires forall lane :: lane in held0 ==> lane < 4
    requires Placeable(arrows) && i < |arrows| && arrows[i].long
    ensures var input := Polled(events, held0).1;
      var s := Sample(elapsed, input.pressed, input.held);
      !EffectAt(arrows, s, Frame([], score0, combo0, {}), i).takes
  {
    PressedWithinHeld(events, held0);
  }

  /**
   * One pass of the play loop without drawing or audio: the events (a quit
   * leaves the loop before anything is judged), the clock reading, then the
   * `retain` pass over the active arrows.
   */
  method PlayFrame(events: seq<Event>, held0: set<nat>, startTime: real, now: real,
                   arrows: seq<Arrow>, score0: int, combo0: int)
    returns (quit: bool, held: set<nat>, kept: seq<Arrow>, score: int, combo: int)
    requires forall lane :: lane in held0 ==> lane < 4
    requires Placeable(arrows)
    ensures quit == Polled(events, held0).0 && held == Polled(events, held0).1.held
    ensures forall lane :: lane in held ==> lane < 4
    ensures quit ==> kept == arrows && score == score0 && combo == combo0
    ensures !quit ==>
      var input := Polled(events, held0).1;
      var f := JudgeAll(arrows, Sample(Elapsed(startTime, now), input.pressed, input.held), Frame([], score0, combo0, {}));
      kept == f.kept && score == f.score && combo == f.combo
  {
    var pressed;
    quit, pressed, held := PollInput(events, held0);
    PressedWithinHeld(events, held0);
    if quit {
      return quit, held, arrows, score0, combo0;
    }
    var elapsed := Elapsed(startTime, now);
    kept, score, combo := Judge(arrows, elapsed, pressed, held, score0, combo0);
  }

  // ---------------------------------------------------------------------
  // The difficulty menu

  /** The menu's events: Up, Down, Return, closing the window, anything else. */
  datatype MenuEvent = MenuUp | MenuDown | MenuReturn | MenuQuit | MenuOther

  /** How the menu ends: a choice, the process exiting, or still open when the events run out. */
  datatype MenuOutcome = Picked(index: nat) | Exited | Open(selected: nat)

  /** The selection after one Up or Down among `count` difficulties. */
  function MenuStep(selected: nat, count: nat, e: MenuEvent): nat
    requires e == MenuDown ==> count >= 1
  {
    match e
    case MenuUp => if selected > 0 then selected - 1 else selected
    case MenuDown => if selected < count - 1 then selected + 1 else selected
    case _ => selected
  }

  /** Down is read before any Return or Quit. */
  predicate DownReached(events: seq<MenuEvent>) {
    exists i :: 0 <= i < |events| && events[i] == MenuDown
      && forall j :: 0 <= j < i ==> events[j] != MenuReturn && events[j] != MenuQuit
  }

  /** `choose_difficulty`: the selection loop over the menu's events, starting at 0. */
  function Menu(events: seq<MenuEvent>, count: nat): MenuOutcome
    requires count >= 1 || !DownReached(events)
  {
    MenuFrom(events, count, 0)
  }

  function MenuFrom(events: seq<MenuEvent>, count: nat, selected: nat): MenuOutcome
    requires count >= 1 || !DownReached(events)
  {
    if events == [] then Open(selected)
    else match events[0]
      case MenuReturn => Picked(selected)
      case MenuQuit => Exited
      case e =>
        DownReachedFrom(events);
        MenuFrom(events[1..], count, MenuStep(selected, count, e))
  }

  /** A Down first, or after a first event that neither returns nor quits, is reached. */
  lemma DownReachedFrom(events: seq<MenuEvent>)
    requires events != []
    ensures events[0] == MenuDown ==> DownReached(events)
    ensures events[0] != MenuReturn && events[0] != MenuQuit && DownReached(events[1..]) ==> DownReached(events)
  {
    if events[0] != MenuReturn && events[0] != MenuQuit && DownReached(events[1..]) {
      var i :| 0 <= i < |events[1..]| && events[1..][i] == MenuDown
        && forall j :: 0 <= j < i ==> events[1..][j] != MenuReturn && events[1..][j] != MenuQuit;
      assert events[i + 1] == MenuDown;
      forall j | 0 <= j < i + 1 ensures events[j] != MenuReturn && events[j] != MenuQuit {
        if j > 0 { assert events[j] == events[1..][j - 1]; }
      }
    }
  }

  /** The menu loop, event by event; the `u32` counter never leaves `[0, count - 1]`. */
  method ChooseDifficulty(events: seq<MenuEvent>, count: nat) returns (outcome: MenuOutcome)
    requires count >= 1 || !DownReached(events)
    requires count <= Two32
    ensures outcome == Menu(events, count)
  {
    var selected: nat := 0;
    var i := 0;
    while i < |events|
      invariant 0 <= i <= |events|
      invariant count >= 1 || !DownReached(events[i..])
      invariant MenuFrom(events[i..], count, selected) == Menu(events, count)
      invariant count >= 1 ==> selected <= count - 1
      invariant selected <= U32Max
    {
      var e := events[i];
      assert events[i..][0] == e;
      match e {
        case MenuReturn =>
          return Picked(selected);
        case MenuQuit =>
          return Exited;
        case MenuUp =>
          if selected > 0 {
            selected := selected - 1;
          }
        case MenuDown =>
          if selected < count - 1 {
            selected := selected + 1;
          }
        case MenuOther =>
      }
      DownReachedFrom(events[i..]);
      assert events[i..][1..] == events[i + 1..];
      i := i + 1;
    }
    outcome := Open(selected);
  }

  /** With at least one difficulty, the menu only ever selects an existing one. */
  lemma {:induction false} MenuInRange(events: seq<MenuEvent>, count: nat, selected: nat)
    requires 1 <= count && selected < count
    ensures match MenuFrom(events, count, selected)
      case Picked(k) => k < count
      case Open(k) => k < count
      case Exited => true
  {
    if events != [] && events[0] != MenuReturn && events[0] != MenuQuit {
      MenuInRange(events[1..], count, MenuStep(selected, count, events[0]));
    }
  }
}
