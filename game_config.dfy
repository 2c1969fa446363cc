/**
 * The level catalogue of the snake game: grid constants, the four difficulty
 * tiers, the zones that group the 30 levels, the speed of each level, the two
 * obstacle generators and the obstacle layout of every level.
 */
module GameConfig {
  import opened Wrappers

  /** A grid cell; coordinates are unbounded so that a head that left the grid can be represented. */
  datatype Pos = Pos(x: int, y: int)

  const GRID_SIZE: int := 20
  const INITIAL_SNAKE_LENGTH: int := 3
  const MAX_LEVEL: int := 30

  predicate InGrid(p: Pos) {
    0 <= p.x < GRID_SIZE && 0 <= p.y < GRID_SIZE
  }

  function Max(a: int, b: int): int {
    if a >= b then a else b
  }

  // ---------------------------------------------------------------------------
  // Difficulty tiers

  datatype Difficulty = Easy | Medium | Hard | Hell

  /**
   * One row of the difficulty table. The score multiplier (1, 1.5, 2 or 3) is
   * held exactly as a number of halves, so that 10 * multiplier is computed
   * without floating point.
   */
  datatype DifficultyConfig = DifficultyConfig(speed: int, multiplierHalves: nat, requiredScore: int)

  function DifficultySettings(d: Difficulty): DifficultyConfig {
    match d
    case Easy => DifficultyConfig(200, 2, 50)
    case Medium => DifficultyConfig(150, 3, 75)
    case Hard => DifficultyConfig(100, 4, 100)
    case Hell => DifficultyConfig(70, 6, 150)
  }

  /** floor(10 * scoreMultiplier): the points one food is worth in tier `d`. */
  function PointsPerFood(d: Difficulty): nat {
    (10 * DifficultySettings(d).multiplierHalves) / 2
  }

  /**
   * In every tier 10 * multiplier is a whole number (the floor loses nothing),
   * the points are 10, 15, 20 and 30, and the required score is five foods.
   */
  lemma DifficultyTiers(d: Difficulty)
    ensures 2 * PointsPerFood(d) == 10 * DifficultySettings(d).multiplierHalves
    ensures PointsPerFood(d) == match d case Easy => 10 case Medium => 15 case Hard => 20 case Hell => 30
    ensures DifficultySettings(d).requiredScore == 5 * PointsPerFood(d)
  {
  }

  /** Eating k foods in one level reaches that level's required score exactly when k >= 5. */
  lemma FifthFoodCompletes(d: Difficulty, k: nat)
    ensures k * PointsPerFood(d) >= DifficultySettings(d).requiredScore <==> k >= 5
  {
  }

  // ---------------------------------------------------------------------------
  // Zones

  /** A zone: its ordered list of levels, its base speed and its difficulty tier. */
  datatype Zone = Zone(levels: seq<int>, baseSpeed: int, difficulty: Difficulty)

  /** The zone table's keys. */
  datatype ZoneKey = EASY | MEDIUM | HARD | HELL

  datatype ZoneEntry = ZoneEntry(key: ZoneKey, config: Zone)

  /** The zone table in declaration order (the order the lookup scans it in). */
  const ZONE_CONFIG: seq<ZoneEntry> := [
    ZoneEntry(EASY, Zone([1, 2, 3, 4, 5, 6, 7, 8], 200, Easy)),
    ZoneEntry(MEDIUM, Zone([9, 10, 11, 12, 13, 14, 15, 16], 150, Medium)),
    ZoneEntry(HARD, Zone([17, 18, 19, 20, 21, 22, 23, 24], 100, Hard)),
    ZoneEntry(HELL, Zone([25, 26, 27, 28, 29, 30], 70, Hell))
  ]

  /**
   * The result of a zone lookup: the zone's settings, and its key when the
   * lookup found the level (the fallback is returned without a key).
   */
  datatype LevelZone = LevelZone(config: Zone, key: Option<ZoneKey>)

  predicate ZoneHas(e: ZoneEntry, level: int) {
    level in e.config.levels
  }

  /** The scan for the first zone whose levels contain `level`, falling back to the EASY zone. */
  function FindZone(entries: seq<ZoneEntry>, level: int): LevelZone {
    if entries == [] then LevelZone(ZONE_CONFIG[0].config, None)
    else if level in entries[0].config.levels then LevelZone(entries[0].config, Some(entries[0].key))
    else FindZone(entries[1..], level)
  }

  /**
   * The scan finds a zone exactly when some entry lists the level, and then it is
   * the first such entry, returned with its key; otherwise it is the EASY zone.
   */
  lemma {:induction false} FindZoneFindsFirst(entries: seq<ZoneEntry>, level: int)
    ensures var r := FindZone(entries, level);
      && (r.key.Some? <==> exists i :: 0 <= i < |entries| && ZoneHas(entries[i], level))
      && (r.key.Some? ==>
            exists i :: 0 <= i < |entries| && ZoneHas(entries[i], level)
              && (forall j :: 0 <= j < i ==> !ZoneHas(entries[j], level))
              && r == LevelZone(entries[i].config, Some(entries[i].key)))
      && (r.key.None? ==> r.config == ZONE_CONFIG[0].config)
  {
    if entries == [] {
    } else if level in entries[0].config.levels {
      assert ZoneHas(entries[0], level);
    } else {
      FindZoneFindsFirst(entries[1..], level);
      assert forall i :: 1 <= i < |entries| ==> entries[i] == entries[1..][i - 1];
      var r := FindZone(entries[1..], level);
      if r.key.Some? {
        var i :| 0 <= i < |entries| - 1 && ZoneHas(entries[1..][i], level)
          && (forall j :: 0 <= j < i ==> !ZoneHas(entries[1..][j], level))
          && r == LevelZone(entries[1..][i].config, Some(entries[1..][i].key));
        assert ZoneHas(entries[i + 1], level);
        assert forall j :: 0 <= j < i + 1 ==> !ZoneHas(entries[j], level) by {
          forall j | 0 <= j < i + 1 ensures !ZoneHas(entries[j], level) {
            if j > 0 { assert entries[j] == entries[1..][j - 1]; }
          }
        }
      }
    }
  }

  function GetLevelZone(level: int): LevelZone {
    FindZone(ZONE_CONFIG, level)
  }

  /** The index into ZONE_CONFIG of the zone a catalogue level belongs to. */
  function ZoneIndex(level: int): nat {
    if level <= 8 then 0 else if level <= 16 then 1 else if level <= 24 then 2 else 3
  }

  /** The levels lo, lo+1, ..., lo+n-1. */
  function Range(lo: int, n: nat): seq<int> {
    seq(n, i => lo + i)
  }

  lemma RangeMembership(lo: int, n: nat, level: int)
    ensures level in Range(lo, n) <==> lo <= level < lo + n
  {
    if lo <= level < lo + n {
      assert Range(lo, n)[level - lo] == level;
    }
  }

  /** Each zone lists a block of consecutive levels: 1-8, 9-16, 17-24 and 25-30. */
  lemma ZoneLevelsContiguous()
    ensures ZONE_CONFIG[0].config.levels == Range(1, 8)
    ensures ZONE_CONFIG[1].config.levels == Range(9, 8)
    ensures ZONE_CONFIG[2].config.levels == Range(17, 8)
    ensures ZONE_CONFIG[3].config.levels == Range(25, 6)
  {
  }

  /** The first level of zone k. */
  function ZoneStart(k: nat): int {
    if k == 0 then 1 else if k == 1 then 9 else if k == 2 then 17 else 25
  }

  function ZoneLength(k: nat): nat {
    if k == 3 then 6 else 8
  }

  lemma ZoneMembership(k: nat, level: int)
    requires k < |ZONE_CONFIG|
    ensures ZoneHas(ZONE_CONFIG[k], level) <==> ZoneStart(k) <= level < ZoneStart(k) + ZoneLength(k)
  {
    ZoneLevelsContiguous();
    RangeMembership(ZoneStart(k), ZoneLength(k), level);
  }

  /**
   * The zones partition the levels: a level lies in some zone exactly when it is
   * in 1..MAX_LEVEL, and then only in zone ZoneIndex(level).
   */
  lemma ZonesPartition(level: int)
    ensures (exists k :: 0 <= k < |ZONE_CONFIG| && ZoneHas(ZONE_CONFIG[k], level)) <==> 1 <= level <= MAX_LEVEL
    ensures forall k :: 0 <= k < |ZONE_CONFIG| ==> (ZoneHas(ZONE_CONFIG[k], level) <==> 1 <= level <= MAX_LEVEL && k == ZoneIndex(level))
  {
    forall k | 0 <= k < |ZONE_CONFIG|
      ensures ZoneHas(ZONE_CONFIG[k], level) <==> 1 <= level <= MAX_LEVEL && k == ZoneIndex(level)
    {
      ZoneMembership(k, level);
    }
    if 1 <= level <= MAX_LEVEL {
      assert ZoneHas(ZONE_CONFIG[ZoneIndex(level)], level);
    }
  }

  /** For a catalogue level the lookup returns the one zone that lists it, with its key. */
  lemma GetLevelZoneOfCatalogueLevel(level: int)
    requires 1 <= level <= MAX_LEVEL
    ensures GetLevelZone(level) == LevelZone(ZONE_CONFIG[ZoneIndex(level)].config, Some(ZONE_CONFIG[ZoneIndex(level)].key))
  {
    ZonesPartition(level);
    FindZoneFindsFirst(ZONE_CONFIG, level);
  }

  /** Any other level falls back to the EASY zone, without a key. */
  lemma GetLevelZoneFallback(level: int)
    requires level < 1 || level > MAX_LEVEL
    ensures GetLevelZone(level) == LevelZone(ZONE_CONFIG[0].config, None)
  {
    ZonesPartition(level);
    FindZoneFindsFirst(ZONE_CONFIG, level);
  }

  // ---------------------------------------------------------------------------
  // Speed

  /** Position of the first occurrence of `v` in `s`, or -1 when it does not occur. */
  function IndexOf(s: seq<int>, v: int): int {
    if s == [] then -1
    else if s[0] == v then 0
    else
      var r := IndexOf(s[1..], v);
      if r == -1 then -1 else r + 1
  }

  /** IndexOf is -1 exactly when `v` is absent, and otherwise the position of its first occurrence. */
  lemma {:induction false} IndexOfFirst(s: seq<int>, v: int)
    ensures var r := IndexOf(s, v);
      && -1 <= r < |s|
      && (r == -1 <==> v !in s)
      && (r >= 0 ==> s[r] == v && v !in s[..r])
  {
    if s != [] && s[0] != v {
      IndexOfFirst(s[1..], v);
      var r := IndexOf(s[1..], v);
      if r != -1 {
        assert s[..r + 1] == [s[0]] + s[1..][..r];
      }
    }
  }

  lemma IndexOfRange(lo: int, n: nat, level: int)
    requires lo <= level < lo + n
    ensures IndexOf(Range(lo, n), level) == level - lo
  {
    RangeMembership(lo, n, level);
    IndexOfFirst(Range(lo, n), level);
    var r := IndexOf(Range(lo, n), level);
    assert Range(lo, n)[r] == lo + r;
  }

  /** Milliseconds per tick at `level`: 15 ms faster per level further into the zone, never below 50. */
  function GetLevelSpeed(level: int): int {
    var zone := GetLevelZone(level).config;
    var levelInZone := IndexOf(zone.levels, level);
    Max(zone.baseSpeed - levelInZone * 15, 50)
  }

  /**
   * For a catalogue level the speed is the zone's base speed less 15 per level
   * since the zone's first level, floored at 50; it never exceeds the base speed.
   */
  lemma SpeedOfCatalogueLevel(level: int)
    requires 1 <= level <= MAX_LEVEL
    ensures var k := ZoneIndex(level);
      var base := ZONE_CONFIG[k].config.baseSpeed;
      && GetLevelSpeed(level) == Max(base - 15 * (level - ZoneStart(k)), 50)
      && 50 <= GetLevelSpeed(level) <= base
  {
    SpeedInZone(level, ZoneIndex(level), level - ZoneStart(ZoneIndex(level)));
  }

  /** The speed of the level d places after the first level of zone k. */
  lemma SpeedInZone(level: int, k: nat, d: int)
    requires 1 <= level <= MAX_LEVEL && k == ZoneIndex(level) && d == level - ZoneStart(k)
    ensures GetLevelSpeed(level) == Max(ZONE_CONFIG[k].config.baseSpeed - 15 * d, 50)
  {
    GetLevelZoneOfCatalogueLevel(level);
    ZoneLevelsContiguous();
    IndexOfRange(ZoneStart(k), ZoneLength(k), level);
  }

  /** Within a zone each next level's speed is the previous one less 15, floored at 50. */
  lemma SpeedStepWithinZone(level: int)
    requires 1 <= level < MAX_LEVEL
    requires ZoneIndex(level) == ZoneIndex(level + 1)
    ensures GetLevelSpeed(level + 1) == Max(GetLevelSpeed(level) - 15, 50)
    ensures GetLevelSpeed(level + 1) <= GetLevelSpeed(level)
  {
    var k := ZoneIndex(level);
    var d := level - ZoneStart(k);
    var here := GetLevelSpeed(level);
    var next := GetLevelSpeed(level + 1);
    SpeedInZone(level, k, d);
    SpeedInZone(level + 1, k, d + 1);
    FloorStep(here, next, ZONE_CONFIG[k].config.baseSpeed, d);
  }

  /** One more level into a zone takes 15 ms off, down to the 50 ms floor. */
  lemma FloorStep(here: int, next: int, base: int, d: int)
    requires here == Max(base - 15 * d, 50)
    requires next == Max(base - 15 * (d + 1), 50)
    ensures next == Max(here - 15, 50)
    ensures next <= here
  {
  }

  /** A level in no zone gets the EASY zone and index -1, so its speed is 200 + 15 = 215. */
  lemma SpeedFallback(level: int)
    requires level < 1 || level > MAX_LEVEL
    ensures GetLevelSpeed(level) == 215
  {
    GetLevelZoneFallback(level);
    assert IndexOf(ZONE_CONFIG[0].config.levels, level) == -1 by {
      ZonesPartition(level);
      IndexOfFirst(ZONE_CONFIG[0].config.levels, level);
    }
  }

  /** The zone's base speed is the speed of the zone's difficulty tier. */
  lemma ZoneSpeedMatchesTier(k: nat)
    requires k < |ZONE_CONFIG|
    ensures ZONE_CONFIG[k].config.baseSpeed == DifficultySettings(ZONE_CONFIG[k].config.difficulty).speed
  {
  }

  // ---------------------------------------------------------------------------
  // Obstacle generators

  datatype WallDirection = Horizontal | Vertical

  /** The i-th cell of a wall: to the right of the start when horizontal, below it otherwise. */
  function WallCell(startX: int, startY: int, i: int, direction: WallDirection): Pos {
    if direction == Horizontal then Pos(startX + i, startY) else Pos(startX, startY + i)
  }

  /** The cells a straight wall of `length` cells consists of, in the order they are pushed. */
  function Walls(startX: int, startY: int, length: int, direction: WallDirection): seq<Pos> {
    seq(Max(length, 0), i => WallCell(startX, startY, i, direction))
  }

  /** A wall holds max(length, 0) cells and its i-th cell is offset i from the start. */
  lemma WallsCells(startX: int, startY: int, length: int, direction: WallDirection)
    ensures |Walls(startX, startY, length, direction)| == Max(length, 0)
    ensures forall i :: 0 <= i < |Walls(startX, startY, length, direction)| ==>
      Walls(startX, startY, length, direction)[i] == WallCell(startX, startY, i, direction)
  {
  }

  /** The cell p is on the wall exactly when it lies on the wall's row (or column) within its length. */
  predicate OnWall(p: Pos, startX: int, startY: int, length: int, direction: WallDirection) {
    if direction == Horizontal then p.y == startY && startX <= p.x < startX + length
    else p.x == startX && startY <= p.y < startY + length
  }

  lemma WallsMembership(startX: int, startY: int, length: int, direction: WallDirection, p: Pos)
    ensures p in Walls(startX, startY, length, direction) <==> OnWall(p, startX, startY, length, direction)
  {
    var w := Walls(startX, startY, length, direction);
    WallsCells(startX, startY, length, direction);
    if OnWall(p, startX, startY, length, direction) {
      var i := if direction == Horizontal then p.x - startX else p.y - startY;
      assert w[i] == p;
    }
  }

  /** generateWalls: pushes the wall's cells onto a fresh list. */
  method GenerateWalls(startX: int, startY: int, length: int, direction: WallDirection) returns (walls: seq<Pos>)
    ensures walls == Walls(startX, startY, length, direction)
    ensures |walls| == Max(length, 0)
    ensures forall p :: p in walls <==> OnWall(p, startX, startY, length, direction)
  {
    walls := [];
    var i := 0;
    while i < length
      invariant 0 <= i <= Max(length, 0)
      invariant walls == Walls(startX, startY, i, direction)
    {
      if direction == Horizontal {
        walls := walls + [Pos(startX + i, startY)];
      } else {
        walls := walls + [Pos(startX, startY + i)];
      }
      i := i + 1;
    }
    WallsCells(startX, startY, length, direction);
    forall p ensures p in walls <==> OnWall(p, startX, startY, length, direction) {
      WallsMembership(startX, startY, length, direction, p);
    }
  }

  /** Whether cell (i, j) of a width x height box is kept: all of them when filled, else the border. */
  predicate BoxKeeps(i: int, j: int, width: int, height: int, filled: bool) {
    filled || i == 0 || i == width - 1 || j == 0 || j == height - 1
  }

  /** The cells kept in column i with row index below j, in push order. */
  function BoxColumn(startX: int, startY: int, i: int, j: int, width: int, height: int, filled: bool): seq<Pos>
    decreases j
  {
    if j <= 0 then []
    else
      BoxColumn(startX, startY, i, j - 1, width, height, filled)
        + (if BoxKeeps(i, j - 1, width, height, filled) then [Pos(startX + i, startY + j - 1)] else [])
  }

  /** The cells kept in the columns below i, in push order. */
  function BoxColumns(startX: int, startY: int, i: int, width: int, height: int, filled: bool): seq<Pos>
    decreases i
  {
    if i <= 0 then []
    else BoxColumns(startX, startY, i - 1, width, height, filled) + BoxColumn(startX, startY, i - 1, height, width, height, filled)
  }

  /** The cells of a width x height box, column by column. */
  function Box(startX: int, startY: int, width: int, height: int, filled: bool): seq<Pos> {
    BoxColumns(startX, startY, width, width, height, filled)
  }

  /** The cell p is in the box exactly when it lies in the rectangle and its offset is kept. */
  predicate InBox(p: Pos, startX: int, startY: int, width: int, height: int, filled: bool) {
    0 <= p.x - startX < width && 0 <= p.y - startY < height
    && BoxKeeps(p.x - startX, p.y - startY, width, height, filled)
  }

  lemma {:induction false} BoxColumnMembership(startX: int, startY: int, i: int, j: int, width: int, height: int, filled: bool, p: Pos)
    requires j <= height
    ensures p in BoxColumn(startX, startY, i, j, width, height, filled) <==>
      p.x == startX + i && 0 <= p.y - startY < j && BoxKeeps(i, p.y - startY, width, height, filled)
    decreases j
  {
    if j > 0 {
      BoxColumnMembership(startX, startY, i, j - 1, width, height, filled, p);
    }
  }

  lemma {:induction false} BoxColumnsMembership(startX: int, startY: int, i: int, width: int, height: int, filled: bool, p: Pos)
    requires i <= width
    ensures p in BoxColumns(startX, startY, i, width, height, filled) <==>
      0 <= p.x - startX < i && InBox(p, startX, startY, width, height, filled)
    decreases i
  {
    if i > 0 {
      var rest := BoxColumns(startX, startY, i - 1, width, height, filled);
      var column := BoxColumn(startX, startY, i - 1, height, width, height, filled);
      BoxColumnsMembership(startX, startY, i - 1, width, height, filled, p);
      BoxColumnMembership(startX, startY, i - 1, height, width, height, filled, p);
      assert p in rest + column <==> p in rest || p in column;
      if p.x - startX == i - 1 {
        assert p !in rest;
      } else {
        assert p !in column;
      }
    }
  }

  /**
   * A filled box holds every cell of the rectangle; an open one holds exactly
   * the cells on its first or last column or its first or last row.
   */
  lemma BoxMembership(startX: int, startY: int, width: int, height: int, filled: bool, p: Pos)
    ensures p in Box(startX, startY, width, height, filled) <==>
      0 <= p.x - startX < width && 0 <= p.y - startY < height
      && (filled || p.x - startX == 0 || p.x - startX == width - 1 || p.y - startY == 0 || p.y - startY == height - 1)
  {
    BoxColumnsMembership(startX, startY, width, width, height, filled, p);
  }

  lemma {:induction false} FilledColumnLength(startX: int, startY: int, i: int, j: int, width: int, height: int)
    ensures |BoxColumn(startX, startY, i, j, width, height, true)| == Max(j, 0)
    decreases j
  {
    if j > 0 {
      FilledColumnLength(startX, startY, i, j - 1, width, height);
    }
  }

  lemma {:induction false} FilledColumnsLength(startX: int, startY: int, i: int, width: int, height: int)
    ensures |BoxColumns(startX, startY, i, width, height, true)| == Max(i, 0) * Max(height, 0)
    decreases i
  {
    if i > 0 {
      FilledColumnsLength(startX, startY, i - 1, width, height);
      FilledColumnLength(startX, startY, i - 1, height, width, height);
      assert (i - 1) * Max(height, 0) + Max(height, 0) == i * Max(height, 0);
    }
  }

  /** A filled box has width * height cells (none when either side is not positive). */
  lemma FilledBoxSize(startX: int, startY: int, width: int, height: int)
    ensures |Box(startX, startY, width, height, true)| == Max(width, 0) * Max(height, 0)
  {
    FilledColumnsLength(startX, startY, width, width, height);
  }

  /** generateBox: two nested loops push every kept cell of the box. */
  method GenerateBox(startX: int, startY: int, width: int, height: int, filled: bool) returns (walls: seq<Pos>)
    ensures walls == Box(startX, startY, width, height, filled)
  {
    walls := [];
    var i := 0;
    while i < width
      invariant 0 <= i <= Max(width, 0)
      invariant walls == BoxColumns(startX, startY, i, width, height, filled)
    {
      ghost var done := walls;
      var j := 0;
      while j < height
        invariant 0 <= j <= Max(height, 0)
        invariant walls == done + BoxColumn(startX, startY, i, j, width, height, filled)
      {
        ghost var column := BoxColumn(startX, startY, i, j, width, height, filled);
        if filled || i == 0 || i == width - 1 || j == 0 || j == height - 1 {
          walls := walls + [Pos(startX + i, startY + j)];
          assert BoxColumn(startX, startY, i, j + 1, width, height, filled) == column + [Pos(startX + i, startY + j)];
        } else {
          assert BoxColumn(startX, startY, i, j + 1, width, height, filled) == column;
        }
        j := j + 1;
      }
      assert BoxColumn(startX, startY, i, j, width, height, filled) == BoxColumn(startX, startY, i, height, width, height, filled);
      assert BoxColumns(startX, startY, i + 1, width, height, filled) == done + BoxColumn(startX, startY, i, height, width, height, filled);
      i := i + 1;
    }
  }

  // ---------------------------------------------------------------------------
  // Level catalogue

  /** One generateWalls call of a level's layout. */
  datatype WallRun = WallRun(startX: int, startY: int, length: int, direction: WallDirection)

  function HWall(x: int, y: int, n: int): WallRun { WallRun(x, y, n, Horizontal) }
  function VWall(x: int, y: int, n: int): WallRun { WallRun(x, y, n, Vertical) }

  /** The obstacle cells of a layout: the concatenation of its walls. */
  function Expand(runs: seq<WallRun>): seq<Pos> {
    if runs == [] then []
    else Walls(runs[0].startX, runs[0].startY, runs[0].length, runs[0].direction) + Expand(runs[1..])
  }

  predicate OnRun(p: Pos, r: WallRun) {
    OnWall(p, r.startX, r.startY, r.length, r.direction)
  }

  lemma {:induction false} ExpandMembership(runs: seq<WallRun>, p: Pos)
    ensures p in Expand(runs) <==> exists k :: 0 <= k < |runs| && OnRun(p, runs[k])
  {
    if runs != [] {
      WallsMembership(runs[0].startX, runs[0].startY, runs[0].length, runs[0].direction, p);
      ExpandMembership(runs[1..], p);
      assert forall k :: 1 <= k < |runs| ==> runs[k] == runs[1..][k - 1];
      if p in Expand(runs[1..]) {
        var k :| 0 <= k < |runs[1..]| && OnRun(p, runs[1..][k]);
        assert OnRun(p, runs[k + 1]);
      }
    }
  }

  /**
   * The wall runs of each catalogue level, as the generateWalls calls that
   * build its obstacles: entry k - 1 holds level k. Level names are display
   * strings and are not modelled.
   */
  function LevelConfig(): seq<seq<WallRun>> {
    [
      /* 1 */ [],
      /* 2 */ [HWall(8, 8, 3)],
      /* 3 */ [HWall(5, 5, 4), HWall(11, 5, 4), HWall(8, 14, 4)],
      /* 4 */ [VWall(9, 6, 1), VWall(10, 6, 1), VWall(9, 13, 1), VWall(10, 13, 1)],
      /* 5 */ [HWall(3, 3, 3), HWall(14, 3, 3), HWall(8, 9, 4)],
      /* 6 */ [HWall(5, 5, 4), HWall(11, 5, 4), HWall(8, 14, 4)],
      /* 7 */ [HWall(3, 6, 5), HWall(12, 6, 5), VWall(7, 3, 1), VWall(12, 3, 1), VWall(7, 16, 1)],
      /* 8 */ [HWall(4, 4, 6), HWall(10, 4, 6), HWall(7, 15, 6), VWall(9, 9, 1)],
      /* 9 */ [HWall(4, 4, 4), HWall(12, 4, 4), HWall(8, 15, 4)],
      /* 10 */ [HWall(7, 9, 6), VWall(9, 6, 1), VWall(10, 13, 1)],
      /* 11 */ [HWall(4, 4, 3), HWall(13, 4, 3), HWall(4, 15, 3), HWall(8, 9, 4)],
      /* 12 */ [HWall(3, 7, 4), HWall(13, 7, 4), VWall(8, 4, 1), VWall(11, 15, 1)],
      /* 13 */ [HWall(4, 6, 4), HWall(12, 6, 4), HWall(8, 13, 4), VWall(6, 9, 1)],
      /* 14 */ [HWall(5, 5, 5), HWall(10, 5, 5), HWall(7, 14, 6), VWall(3, 9, 1), VWall(16, 9, 1)],
      /* 15 */ [HWall(3, 5, 4), HWall(13, 5, 4), HWall(8, 14, 4), VWall(6, 8, 1), VWall(13, 8, 1)],
      /* 16 */ [HWall(4, 4, 6), HWall(10, 4, 6), HWall(7, 15, 6), HWall(2, 9, 3), HWall(15, 9, 3)],
      /* 17 */ [HWall(3, 4, 5), HWall(12, 4, 5), HWall(7, 15, 6), VWall(5, 9, 1), VWall(14, 9, 1)],
      /* 18 */ [HWall(2, 6, 5), HWall(13, 6, 5), VWall(7, 3, 1), VWall(12, 3, 1), VWall(9, 16, 1)],
      /* 19 */ [HWall(4, 5, 4), HWall(12, 5, 4), HWall(8, 14, 4), HWall(2, 9, 3), HWall(15, 9, 3)],
      /* 20 */ [HWall(3, 6, 5), HWall(12, 6, 5), HWall(7, 13, 6), VWall(6, 3, 1), VWall(13, 16, 1)],
      /* 21 */ [HWall(4, 4, 6), HWall(10, 4, 6), HWall(7, 15, 6), HWall(2, 9, 4), HWall(14, 9, 4)],
      /* 22 */ [HWall(2, 5, 5), HWall(11, 5, 5), HWall(6, 14, 6), VWall(5, 8, 1), VWall(13, 8, 1), VWall(9, 11, 1)],
      /* 23 */ [HWall(3, 6, 5), HWall(12, 6, 5), HWall(7, 13, 6), HWall(1, 9, 4), HWall(15, 9, 4), VWall(6, 3, 1)],
      /* 24 */ [HWall(4, 4, 6), HWall(10, 4, 6), HWall(7, 15, 6), HWall(2, 9, 4), HWall(14, 9, 4), VWall(9, 2, 1)],
      /* 25 */ [HWall(2, 5, 5), HWall(11, 5, 5), HWall(6, 14, 6), VWall(5, 8, 1), VWall(13, 8, 1), VWall(9, 11, 1)],
      /* 26 */ [HWall(3, 4, 6), HWall(11, 4, 6), HWall(7, 15, 6), HWall(1, 9, 5), HWall(14, 9, 5), VWall(9, 2, 1), VWall(10, 17, 1)],
      /* 27 */ [HWall(2, 4, 6), HWall(10, 4, 6), HWall(6, 15, 6), VWall(4, 8, 1), VWall(12, 8, 1), VWall(8, 11, 1), HWall(1, 9, 4), HWall(15, 9, 4)],
      /* 28 */ [HWall(3, 4, 6), HWall(11, 4, 6), HWall(7, 15, 6), HWall(2, 9, 5), HWall(13, 9, 5), VWall(9, 2, 1), VWall(10, 17, 1), VWall(6, 11, 1)],
      /* 29 */ [HWall(2, 3, 6), HWall(10, 3, 6), HWall(6, 16, 6), VWall(4, 7, 1), VWall(12, 7, 1), VWall(8, 13, 1), HWall(1, 10, 5), HWall(14, 10, 5)],
      /* 30 */ [HWall(2, 3, 6), HWall(10, 3, 6), HWall(6, 16, 6), HWall(1, 8, 6), HWall(13, 8, 6), HWall(1, 11, 6), HWall(13, 11, 6), VWall(4, 6, 1), VWall(12, 6, 1), VWall(8, 13, 1)]
    ]
  }

  /** The wall runs of a level; a level outside the catalogue has none. */
  function LevelLayout(level: int): seq<WallRun> {
    if 1 <= level <= |LevelConfig()| then LevelConfig()[level - 1] else []
  }

  /** A level's obstacle cells. */
  function LevelObstacles(level: int): seq<Pos> {
    Expand(LevelLayout(level))
  }

  /** The catalogue holds exactly the levels 1..MAX_LEVEL; any other level has no walls. */
  lemma LayoutOutsideCatalogue(level: int)
    ensures |LevelConfig()| == MAX_LEVEL
    ensures !(1 <= level <= MAX_LEVEL) ==> LevelLayout(level) == [] && LevelObstacles(level) == []
  {
  }

  /** Every cell of the wall lies in the grid. */
  predicate RunInGrid(r: WallRun) {
    r.length <= 0
    || (r.direction == Horizontal && 0 <= r.startX && r.startX + r.length <= GRID_SIZE && 0 <= r.startY < GRID_SIZE)
    || (r.direction == Vertical && 0 <= r.startX < GRID_SIZE && 0 <= r.startY && r.startY + r.length <= GRID_SIZE)
  }

  /** The wall avoids the three cells (8..10, 10) of a snake placed at the grid centre. */
  predicate RunAvoidsCentre(r: WallRun) {
    !OnRun(Pos(10, 10), r) && !OnRun(Pos(9, 10), r) && !OnRun(Pos(8, 10), r)
  }

  predicate LayoutChecked(runs: seq<WallRun>) {
    forall k :: 0 <= k < |runs| ==> RunInGrid(runs[k]) && RunAvoidsCentre(runs[k])
  }

  lemma EasyLayoutsChecked(level: int)
    requires 1 <= level <= 8
    ensures LayoutChecked(LevelLayout(level))
  {
    if level == 1 {} else if level == 2 {} else if level == 3 {} else if level == 4 {}
    else if level == 5 {} else if level == 6 {} else if level == 7 {} else {}
  }

  lemma MediumLayoutsChecked(level: int)
    requires 9 <= level <= 16
    ensures LayoutChecked(LevelLayout(level))
  {
    if level == 9 {} else if level == 10 {} else if level == 11 {} else if level == 12 {}
    else if level == 13 {} else if level == 14 {} else if level == 15 {} else {}
  }

  lemma HardLayoutsChecked(level: int)
    requires 17 <= level <= 24
    ensures LayoutChecked(LevelLayout(level))
  {
    if level == 17 {} else if level == 18 {} else if level == 19 {} else if level == 20 {}
    else if level == 21 {} else if level == 22 {} else if level == 23 {} else {}
  }

  lemma HellLayoutsChecked(level: int)
    requires 25 <= level <= 30
    ensures LayoutChecked(LevelLayout(level))
  {
    if level == 25 {} else if level == 26 {} else if level == 27 {} else if level == 28 {}
    else if level == 29 {} else {}
  }

  /** Every wall of every level lies in the grid and avoids the centre cells. */
  lemma AllLayoutsChecked(level: int)
    ensures LayoutChecked(LevelLayout(level))
  {
    if !(1 <= level <= MAX_LEVEL) { LayoutOutsideCatalogue(level); }
    else if level <= 8 { EasyLayoutsChecked(level); }
    else if level <= 16 { MediumLayoutsChecked(level); }
    else if level <= 24 { HardLayoutsChecked(level); }
    else { HellLayoutsChecked(level); }
  }

  lemma ExpandInGrid(runs: seq<WallRun>, p: Pos)
    requires LayoutChecked(runs)
    requires p in Expand(runs)
    ensures InGrid(p)
  {
    ExpandMembership(runs, p);
  }

  /** Every obstacle of every level lies inside the grid. */
  lemma ObstaclesInGrid(level: int, p: Pos)
    requires p in LevelObstacles(level)
    ensures InGrid(p)
  {
    AllLayoutsChecked(level);
    ExpandInGrid(LevelLayout(level), p);
  }

  /**
   * No level has an obstacle on the cells (10,10), (9,10), (8,10) that the
   * fallback snake placement uses.
   */
  lemma CentreClearOfObstacles(level: int)
    ensures Pos(10, 10) !in LevelObstacles(level)
    ensures Pos(9, 10) !in LevelObstacles(level)
    ensures Pos(8, 10) !in LevelObstacles(level)
  {
    AllLayoutsChecked(level);
    ExpandMembership(LevelLayout(level), Pos(10, 10));
    ExpandMembership(LevelLayout(level), Pos(9, 10));
    ExpandMembership(LevelLayout(level), Pos(8, 10));
  }

  lemma FirstLevelIsOpen()
    ensures LevelObstacles(1) == []
  {
  }
}
