/**
 * `GameState`: the parsed chart held for a play session, `new` (which stamps
 * every arrow's spawn time from the scroll speed) and `start` (which picks a
 * difficulty and schedules the start of play).
 */
module Session {
  import opened Chart
  import Play

  /** The spawn time of the first arrow of a non-empty list. */
  function FirstSpawn(arrows: seq<Arrow>): real
    requires arrows != []
  {
    arrows[0].spawnTime
  }

  /**
   * Seconds from `start` until play begins: one, or one minus the first
   * arrow's spawn time when that is negative. The game clock reads 0 for
   * the whole wait, so an arrow with a negative spawn time is already on
   * screen, and judged, before play begins (see `EarlyArrowsJudgedInDelay`).
   */
  function StartDelay(arrows: seq<Arrow>): (r: real)
    ensures r >= 1.0
    ensures arrows != [] ==> r + FirstSpawn(arrows) >= 1.0
    ensures r == 1.0 || (arrows != [] && r + FirstSpawn(arrows) == 1.0)
  {
    if arrows != [] && arrows[0].spawnTime < 0.0 then 1.0 - arrows[0].spawnTime else 1.0
  }

  /** The list `start` activates for `difficulty`: a copy of it, or nothing when out of range. */
  function Chosen(all: seq<seq<Arrow>>, difficulty: nat): (r: seq<Arrow>)
    ensures difficulty < |all| ==> r == all[difficulty]
    ensures difficulty >= |all| ==> r == []
  {
    if difficulty < |all| then all[difficulty] else []
  }

  /**
   * While the start delay runs the clock reads 0, which is already past a
   * negative spawn time: such an arrow is judged before play begins, and a
   * press near the line takes it exactly as it would during play.
   */
  lemma EarlyArrowsJudgedInDelay(arrows: seq<Arrow>, start: real, now: real,
                                 pressed: set<nat>, held: set<nat>, taken: set<nat>)
    requires arrows != [] && FirstSpawn(arrows) < 0.0 && arrows[0].hitTime != arrows[0].spawnTime
    requires start <= now < start + StartDelay(arrows)
    ensures Play.Elapsed(start + StartDelay(arrows), now) == 0.0
    ensures var r := Play.Judgment(arrows[0], Play.Elapsed(start + StartDelay(arrows), now), pressed, held, taken);
      r.takes <==> Play.Hits(arrows[0], 0.0, pressed, held, taken)
  {
  }

  /**
   * A tap due at time 0 with a negative spawn time, pressed during the start
   * delay, is hit on the line for the full 500 points before play begins.
   */
  lemma EarlyTapHitInDelay(start: real, now: real)
    requires start <= now < start + StartDelay([Arrow(0, 0.0, -1.5, false, 0.0)])
    ensures Play.Judgment(Arrow(0, 0.0, -1.5, false, 0.0), Play.Elapsed(start + StartDelay([Arrow(0, 0.0, -1.5, false, 0.0)]), now),
                          {0}, {0}, {})
         == Play.Effect(false, 500, Play.Increment, true)
  {
    EarlyArrowsJudgedInDelay([Arrow(0, 0.0, -1.5, false, 0.0)], start, now, {0}, {0}, {});
  }

  /** Every arrow in `arrows` appears `speed` seconds before it is due. */
  predicate SpawnsAhead(arrows: seq<Arrow>, speed: real) {
    forall j :: 0 <= j < |arrows| ==> arrows[j].spawnTime == arrows[j].hitTime - speed
  }

  /** `stamped` is `all` with each arrow's spawn time set `speed` seconds before its hit time. */
  predicate Stamped(all: seq<seq<Arrow>>, stamped: seq<seq<Arrow>>, speed: real) {
    && |stamped| == |all|
    && (forall i :: 0 <= i < |all| ==> |stamped[i]| == |all[i]|)
    && (forall i, j :: 0 <= i < |all| && 0 <= j < |all[i]| ==>
         stamped[i][j] == all[i][j].(spawnTime := all[i][j].hitTime - speed))
  }

  /** Arrows stamped with a non-zero speed can all be placed on screen. */
  lemma SpawnsAheadPlaceable(arrows: seq<Arrow>, speed: real)
    requires SpawnsAhead(arrows, speed) && speed != 0.0
    ensures Play.Placeable(arrows)
  {
    forall i | 0 <= i < |arrows|
      ensures arrows[i].hitTime != arrows[i].spawnTime
    {
      assert arrows[i].spawnTime == arrows[i].hitTime - speed;
    }
  }

  lemma StampedSpawnsAhead(all: seq<seq<Arrow>>, stamped: seq<seq<Arrow>>, speed: real)
    requires Stamped(all, stamped, speed)
    ensures forall i :: 0 <= i < |stamped| ==> SpawnsAhead(stamped[i], speed)
  {
    forall i, j | 0 <= i < |stamped| && 0 <= j < |stamped[i]|
      ensures stamped[i][j].spawnTime == stamped[i][j].hitTime - speed
    {
      assert stamped[i][j] == all[i][j].(spawnTime := all[i][j].hitTime - speed);
    }
  }

  /** The loop of `new` that overwrites `spawn_time` in every arrow of every difficulty. */
  method StampSpawnTimes(all: seq<seq<Arrow>>, speed: real) returns (stamped: seq<seq<Arrow>>)
    ensures Stamped(all, stamped, speed)
  {
    stamped := all;
    for i := 0 to |all|
      invariant |stamped| == |all|
      invariant forall k :: 0 <= k < |all| ==> |stamped[k]| == |all[k]|
      invariant forall k, j :: 0 <= k < i && 0 <= j < |all[k]| ==>
        stamped[k][j] == all[k][j].(spawnTime := all[k][j].hitTime - speed)
      invariant forall k :: i <= k < |all| ==> stamped[k] == all[k]
    {
      var arrows := stamped[i];
      for j := 0 to |arrows|
        invariant |arrows| == |all[i]|
        invariant forall m :: 0 <= m < j ==> arrows[m] == all[i][m].(spawnTime := all[i][m].hitTime - speed)
        invariant forall m :: j <= m < |arrows| ==> arrows[m] == all[i][m]
      {
        arrows := arrows[j := arrows[j].(spawnTime := arrows[j].hitTime - speed)];
      }
      stamped := stamped[i := arrows];
    }
  }

  /** The work of `new`: parse the chart, then stamp the spawn times. */
  method Load(contents: string, speed: real) returns (p: Parsed, stamped: seq<seq<Arrow>>)
    requires Compilable(contents)
    ensures p == CompileChart(contents)
    ensures Stamped(p.allArrows, stamped, speed)
    ensures forall i :: 0 <= i < |stamped| ==> SpawnsAhead(stamped[i], speed)
  {
    p := ParseSmFile(contents);
    stamped := StampSpawnTimes(p.allArrows, speed);
    StampedSpawnsAhead(p.allArrows, stamped, speed);
  }

  class GameState {
    var difficulties: seq<string>
    var startTime: real
    var arrows: seq<Arrow>
    var song: string
    var artist: string
    var title: string
    var bg: string
    var sampleStart: real
    var sampleLen: real
    var allArrows: seq<seq<Arrow>>

    /** The scroll speed `new` was given; the source does not keep it. */
    ghost var speed: real

    /** What `parse_sm_file` returned for the chart, before the spawn times were stamped. */
    ghost var parsed: Parsed

    /** The fields `parse_sm_file` fills, as its result record. */
    function Snapshot(): Parsed
      reads this
    {
      Parsed(allArrows, difficulties, song, artist, title, bg, sampleStart, sampleLen)
    }

    /**
     * Just after `new`: the fields hold what `parse_sm_file` returned, with
     * every spawn time stamped from `speed`; nothing is active and the start
     * time is the clock reading `now`.
     */
    ghost predicate Fresh(speed: real, now: real)
      reads this
    {
      && this.speed == speed
      && Stamped(parsed.allArrows, allArrows, speed)
      && Snapshot() == parsed.(allArrows := allArrows)
      && arrows == []
      && startTime == now
    }

    /** Every stored arrow, active or not, spawns `speed` seconds before it is due. */
    ghost predicate Valid()
      reads this
    {
      && (forall i :: 0 <= i < |allArrows| ==> SpawnsAhead(allArrows[i], speed))
      && SpawnsAhead(arrows, speed)
    }

    /** The record `new` builds from a parsed chart and its stamped arrow lists. */
    constructor (p: Parsed, stamped: seq<seq<Arrow>>, speed: real, now: real)
      requires Stamped(p.allArrows, stamped, speed)
      requires forall i :: 0 <= i < |stamped| ==> SpawnsAhead(stamped[i], speed)
      ensures parsed == p
      ensures Fresh(speed, now) && Valid()
    {
      difficulties := p.difficulties;
      startTime := now;
      arrows := [];
      song := p.song;
      artist := p.artist;
      title := p.title;
      bg := p.bg;
      sampleStart := p.sampleStart;
      sampleLen := p.sampleLen;
      allArrows := stamped;
      this.speed := speed;
      parsed := p;
    }

    /**
     * `start`: activate a copy of `difficulty` (nothing when it is out of
     * range) and begin play `StartDelay` seconds after `now`.
     */
    method Start(difficulty: nat, now: real)
      requires Valid()
      modifies this
      ensures Valid()
      ensures arrows == Chosen(allArrows, difficulty)
      ensures startTime == now + StartDelay(arrows)
      ensures allArrows == old(allArrows) && difficulties == old(difficulties)
      ensures speed == old(speed) && parsed == old(parsed)
      ensures song == old(song) && artist == old(artist) && title == old(title) && bg == old(bg)
      ensures sampleStart == old(sampleStart) && sampleLen == old(sampleLen)
    {
      var chosen: seq<Arrow> := if difficulty < |allArrows| then allArrows[difficulty] else [];
      var delay := 1.0;
      if |chosen| > 0 {
        if chosen[0].spawnTime < 0.0 {
          delay := delay - chosen[0].spawnTime;
        }
      }
      startTime := now + delay;
      arrows := chosen;
    }
  }

  /** `GameState::new` on the chart text `contents`, at clock reading `now`. */
  method New(contents: string, speed: real, now: real) returns (g: GameState)
    requires Compilable(contents)
    ensures fresh(g)
    ensures g.parsed == CompileChart(contents)
    ensures g.Fresh(speed, now) && g.Valid()
  {
    var p, stamped := Load(contents, speed);
    g := new GameState(p, stamped, speed, now);
  }
}
