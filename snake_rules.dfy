/**
 * The rules of the snake game as functions on values: directions and moves,
 * the shape of the snake after a tick, collision, the search for a spawn
 * position, the merge of saved progress and the keyboard mapping. The class
 * in module SnakeGame is specified in these terms.
 */
module SnakeRules {
  import opened Wrappers
  import opened GameConfig

  datatype Direction = Up | Down | Left | Right

  datatype GameStatus = Idle | Running | Paused | GameOver | LevelComplete

  function Opposite(d: Direction): Direction {
    match d
    case Up => Down
    case Down => Up
    case Left => Right
    case Right => Left
  }

  /** The cell one step from p towards d; y grows downwards. */
  function Shift(p: Pos, d: Direction): Pos {
    match d
    case Up => Pos(p.x, p.y - 1)
    case Down => Pos(p.x, p.y + 1)
    case Left => Pos(p.x - 1, p.y)
    case Right => Pos(p.x + 1, p.y)
  }

  function Abs(n: int): nat {
    if n < 0 then -n else n
  }

  predicate Adjacent(a: Pos, b: Pos) {
    Abs(a.x - b.x) + Abs(a.y - b.y) == 1
  }

  /** A step lands on a neighbouring cell, and stepping back the opposite way undoes it. */
  lemma ShiftInverse(p: Pos, d: Direction)
    ensures Adjacent(p, Shift(p, d))
    ensures Shift(Shift(p, d), Opposite(d)) == p
    ensures Opposite(d) != d && Opposite(Opposite(d)) == d
  {
  }

  /**
   * Rejecting the reverse direction keeps the head off the segment behind it:
   * if the head came from `neck` moving `d`, a next move other than the
   * opposite of `d` does not lead back to `neck`.
   */
  lemma NoReversal(neck: Pos, d: Direction, next: Direction)
    requires next != Opposite(d)
    ensures Shift(Shift(neck, d), next) != neck
  {
  }

  /** Consecutive segments of the body are neighbouring cells. */
  predicate Connected(s: seq<Pos>) {
    forall i :: 0 <= i < |s| - 1 ==> Adjacent(s[i], s[i + 1])
  }

  // ---------------------------------------------------------------------------
  // Initial placement

  /** The snake laid out leftwards from `start`, head first, facing right. */
  function InitialSnake(start: Pos): seq<Pos> {
    seq(INITIAL_SNAKE_LENGTH, i => Pos(start.x - i, start.y))
  }

  lemma InitialSnakeShape(start: Pos)
    ensures |InitialSnake(start)| == INITIAL_SNAKE_LENGTH
    ensures Connected(InitialSnake(start))
    ensures InitialSnake(start)[0] == start
    ensures InitialSnake(start)[0] == Shift(InitialSnake(start)[1], Right)
    ensures start !in InitialSnake(start)[1..]
    ensures forall i :: 0 <= i < |InitialSnake(start)| ==> InitialSnake(start)[i].y == start.y
  {
    var s := InitialSnake(start);
    assert s == [start, Pos(start.x - 1, start.y), Pos(start.x - 2, start.y)];
  }

  /** The number of random placements tried before falling back to the centre. */
  const MAX_SPAWN_ATTEMPTS: int := 100

  /** The range of floor(random * (GRID_SIZE - 6)) + 3, that is 3..16 on both axes. */
  predicate InSpawnRange(p: Pos) {
    3 <= p.x < GRID_SIZE - 3 && 3 <= p.y < GRID_SIZE - 3
  }

  /** The random draws one placement search may consume, all in the spawn range. */
  predicate ValidDraws(draws: seq<Pos>) {
    |draws| == MAX_SPAWN_ATTEMPTS && forall i :: 0 <= i < |draws| ==> InSpawnRange(draws[i])
  }

  /** o is one of the cells (x - i, y + j) for 0 <= i < width, 0 <= j < height. */
  predicate InArea(o: Pos, x: int, y: int, width: int, height: int) {
    x - width < o.x <= x && y <= o.y < y + height
  }

  /** Whether some obstacle lies in the area, scanning the obstacle list in order. */
  predicate AreaOccupied(x: int, y: int, width: int, height: int, obstacles: seq<Pos>) {
    obstacles != [] && (InArea(obstacles[0], x, y, width, height) || AreaOccupied(x, y, width, height, obstacles[1..]))
  }

  /** o lies within two cells of p on both axes. */
  predicate Near(o: Pos, p: Pos) {
    Abs(o.x - p.x) <= 2 && Abs(o.y - p.y) <= 2
  }

  /** Whether some obstacle is near p, scanning the obstacle list in order. */
  predicate NearObstacle(p: Pos, obstacles: seq<Pos>) {
    obstacles != [] && (Near(obstacles[0], p) || NearObstacle(p, obstacles[1..]))
  }

  /** The area scan succeeds exactly when some listed obstacle is in the area. */
  lemma {:induction false} AreaOccupiedMembership(x: int, y: int, width: int, height: int, obstacles: seq<Pos>)
    ensures AreaOccupied(x, y, width, height, obstacles) <==> exists o :: o in obstacles && InArea(o, x, y, width, height)
  {
    if obstacles != [] {
      AreaOccupiedMembership(x, y, width, height, obstacles[1..]);
      assert forall o :: o in obstacles <==> o == obstacles[0] || o in obstacles[1..];
    }
  }

  /** The neighbourhood scan succeeds exactly when some listed obstacle is near p. */
  lemma {:induction false} NearObstacleMembership(p: Pos, obstacles: seq<Pos>)
    ensures NearObstacle(p, obstacles) <==> exists o :: o in obstacles && Near(o, p)
  {
    if obstacles != [] {
      NearObstacleMembership(p, obstacles[1..]);
      assert forall o :: o in obstacles <==> o == obstacles[0] || o in obstacles[1..];
    }
  }

  /** A drawn start position is rejected. */
  predicate SpawnBlocked(p: Pos, obstacles: seq<Pos>) {
    AreaOccupied(p.x, p.y, INITIAL_SNAKE_LENGTH, 1, obstacles) || NearObstacle(p, obstacles)
  }

  /** The snake-sized area check is implied by the neighbourhood check, so it never changes the outcome. */
  lemma AreaCheckImpliesNeighbourhood(p: Pos, obstacles: seq<Pos>)
    ensures AreaOccupied(p.x, p.y, INITIAL_SNAKE_LENGTH, 1, obstacles) ==> NearObstacle(p, obstacles)
  {
    AreaOccupiedMembership(p.x, p.y, INITIAL_SNAKE_LENGTH, 1, obstacles);
    NearObstacleMembership(p, obstacles);
    if AreaOccupied(p.x, p.y, INITIAL_SNAKE_LENGTH, 1, obstacles) {
      var o :| o in obstacles && InArea(o, p.x, p.y, INITIAL_SNAKE_LENGTH, 1);
      assert Near(o, p);
    }
  }

  /** The first draw that is not blocked, if any. */
  function FirstClear(draws: seq<Pos>, obstacles: seq<Pos>): Option<Pos> {
    if draws == [] then None
    else if !SpawnBlocked(draws[0], obstacles) then Some(draws[0])
    else FirstClear(draws[1..], obstacles)
  }

  /**
   * The scan finds nothing exactly when every draw is blocked, and otherwise
   * finds a clear draw all of whose predecessors are blocked.
   */
  lemma {:induction false} FirstClearFindsFirst(draws: seq<Pos>, obstacles: seq<Pos>)
    ensures var r := FirstClear(draws, obstacles);
      && (r.None? <==> forall i :: 0 <= i < |draws| ==> SpawnBlocked(draws[i], obstacles))
      && (r.Some? ==>
            exists k :: 0 <= k < |draws| && r.value == draws[k] && !SpawnBlocked(draws[k], obstacles)
              && forall j :: 0 <= j < k ==> SpawnBlocked(draws[j], obstacles))
  {
    if draws != [] && SpawnBlocked(draws[0], obstacles) {
      FirstClearFindsFirst(draws[1..], obstacles);
      assert forall i :: 1 <= i < |draws| ==> draws[i] == draws[1..][i - 1];
      var r := FirstClear(draws[1..], obstacles);
      if r.Some? {
        var k :| 0 <= k < |draws[1..]| && r.value == draws[1..][k] && !SpawnBlocked(draws[1..][k], obstacles)
          && forall j :: 0 <= j < k ==> SpawnBlocked(draws[1..][j], obstacles);
        assert r.value == draws[k + 1] && forall j :: 0 <= j < k + 1 ==> SpawnBlocked(draws[j], obstacles);
      }
    }
  }

  function CentreSpawn(): Pos {
    Pos(GRID_SIZE / 2, GRID_SIZE / 2)
  }

  /**
   * Where the snake's head is placed: the first clear draw among the first
   * MAX_SPAWN_ATTEMPTS - 1 draws, otherwise the grid centre. The last draw is
   * never used, because the search gives up as soon as the attempt counter
   * reaches its maximum, whatever that draw was.
   */
  function Spawn(draws: seq<Pos>, obstacles: seq<Pos>): Pos
    requires |draws| == MAX_SPAWN_ATTEMPTS
  {
    FirstClear(draws[..MAX_SPAWN_ATTEMPTS - 1], obstacles).GetOr(CentreSpawn())
  }

  /**
   * Where a search that tried `attempts` draws stopped determines the spawn:
   * the last draw tried when it was clear and the limit was not reached,
   * otherwise the centre.
   */
  lemma SearchStop(draws: seq<Pos>, obstacles: seq<Pos>, attempts: int)
    requires ValidDraws(draws) && 1 <= attempts <= MAX_SPAWN_ATTEMPTS
    requires forall k :: 0 <= k < attempts - 1 ==> SpawnBlocked(draws[k], obstacles)
    requires attempts < MAX_SPAWN_ATTEMPTS ==> !SpawnBlocked(draws[attempts - 1], obstacles)
    ensures Spawn(draws, obstacles) == if attempts < MAX_SPAWN_ATTEMPTS then draws[attempts - 1] else CentreSpawn()
  {
    var prefix := draws[..MAX_SPAWN_ATTEMPTS - 1];
    assert forall k :: 0 <= k < |prefix| ==> prefix[k] == draws[k];
    FirstClearFindsFirst(prefix, obstacles);
    var r := FirstClear(prefix, obstacles);
    if attempts < MAX_SPAWN_ATTEMPTS {
      assert !SpawnBlocked(prefix[attempts - 1], obstacles);
      var k :| 0 <= k < |prefix| && r.value == prefix[k] && !SpawnBlocked(prefix[k], obstacles)
        && forall j :: 0 <= j < k ==> SpawnBlocked(prefix[j], obstacles);
      assert k == attempts - 1;
    }
  }

  /** The spawn is either the centre or a clear draw in the spawn range. */
  lemma SpawnOutcome(draws: seq<Pos>, obstacles: seq<Pos>)
    requires ValidDraws(draws)
    ensures Spawn(draws, obstacles) == CentreSpawn()
      || (InSpawnRange(Spawn(draws, obstacles)) && !SpawnBlocked(Spawn(draws, obstacles), obstacles))
  {
    var prefix := draws[..MAX_SPAWN_ATTEMPTS - 1];
    FirstClearFindsFirst(prefix, obstacles);
    var r := FirstClear(prefix, obstacles);
    if r.Some? {
      var k :| 0 <= k < |prefix| && r.value == prefix[k] && !SpawnBlocked(prefix[k], obstacles);
      assert prefix[k] == draws[k];
    }
  }

  /** A clear 100th draw is discarded: if only the last draw is clear, the centre is used. */
  lemma LastDrawDiscarded(draws: seq<Pos>, obstacles: seq<Pos>)
    requires ValidDraws(draws)
    requires forall i :: 0 <= i < MAX_SPAWN_ATTEMPTS - 1 ==> SpawnBlocked(draws[i], obstacles)
    ensures Spawn(draws, obstacles) == CentreSpawn()
  {
    var prefix := draws[..MAX_SPAWN_ATTEMPTS - 1];
    assert forall i :: 0 <= i < |prefix| ==> prefix[i] == draws[i];
    FirstClearFindsFirst(prefix, obstacles);
  }

  /** No obstacle lies on the cells of a snake placed at the grid centre. */
  predicate CentreFree(obstacles: seq<Pos>) {
    forall c :: c in InitialSnake(CentreSpawn()) ==> c !in obstacles
  }

  /**
   * Where the centre cells are free of obstacles, the initial snake lies inside
   * the grid, clear of the obstacles and of itself: a clear draw keeps every
   * obstacle more than two cells away on some axis.
   */
  lemma SpawnedSnakeClear(draws: seq<Pos>, obstacles: seq<Pos>)
    requires ValidDraws(draws)
    requires CentreFree(obstacles)
    ensures var s := InitialSnake(Spawn(draws, obstacles));
      |s| == INITIAL_SNAKE_LENGTH && !Collides(s, obstacles)
      && forall i :: 0 <= i < |s| ==> InGrid(s[i]) && s[i] !in obstacles
  {
    var start := Spawn(draws, obstacles);
    var s := InitialSnake(start);
    InitialSnakeShape(start);
    SpawnOutcome(draws, obstacles);
    NearObstacleMembership(start, obstacles);
    forall i | 0 <= i < |s| ensures s[i] !in obstacles {
      assert Near(s[i], start);
    }
  }

  /** The centre snake is clear of the obstacles exactly when its three cells are. */
  lemma CentreFreeCells(obstacles: seq<Pos>)
    ensures CentreFree(obstacles)
      <==> Pos(10, 10) !in obstacles && Pos(9, 10) !in obstacles && Pos(8, 10) !in obstacles
  {
    assert InitialSnake(CentreSpawn()) == [Pos(10, 10), Pos(9, 10), Pos(8, 10)];
  }

  /** On every level the cells of a snake placed at the centre are free of obstacles. */
  lemma CentreSnakeClear(level: int)
    ensures CentreFree(LevelObstacles(level))
  {
    CentreClearOfObstacles(level);
    CentreFreeCells(LevelObstacles(level));
  }

  // ---------------------------------------------------------------------------
  // One tick

  /** The body after the head moved to `head`: the tail is kept when the snake grew, dropped otherwise. */
  function Advance(snake: seq<Pos>, head: Pos, grow: bool): seq<Pos>
    requires |snake| > 0
  {
    if grow then [head] + snake else [head] + snake[..|snake| - 1]
  }

  /** A move keeps the length unless the snake ate (+1), puts the new head first, and keeps the rest in order. */
  lemma AdvanceShape(snake: seq<Pos>, head: Pos, grow: bool)
    requires |snake| > 0
    ensures |Advance(snake, head, grow)| == |snake| + (if grow then 1 else 0)
    ensures Advance(snake, head, grow)[0] == head
    ensures Advance(snake, head, grow)[1..] == if grow then snake else snake[..|snake| - 1]
  {
    assert Advance(snake, head, grow)[1..] == if grow then snake else snake[..|snake| - 1];
  }

  /**
   * Moving the head one step keeps the body connected, keeps at least the
   * length it had, and leaves the head one step from the next segment in the
   * direction moved.
   */
  lemma AdvanceKeepsConnected(snake: seq<Pos>, d: Direction, grow: bool)
    requires |snake| >= 2 && Connected(snake)
    ensures |Advance(snake, Shift(snake[0], d), grow)| >= |snake|
    ensures Connected(Advance(snake, Shift(snake[0], d), grow))
    ensures Advance(snake, Shift(snake[0], d), grow)[0] == Shift(Advance(snake, Shift(snake[0], d), grow)[1], d)
  {
    var head := Shift(snake[0], d);
    var s := Advance(snake, head, grow);
    ShiftInverse(snake[0], d);
    forall i | 0 <= i < |s| - 1 ensures Adjacent(s[i], s[i + 1]) {
      if i > 0 {
        assert s[i] == snake[i - 1] && s[i + 1] == snake[i];
      }
    }
  }

  /** The head is off the grid, on a later segment of the body, or on an obstacle. */
  predicate Collides(snake: seq<Pos>, obstacles: seq<Pos>)
    requires |snake| > 0
  {
    !InGrid(snake[0]) || snake[0] in snake[1..] || snake[0] in obstacles
  }

  /**
   * Moving onto the cell the tail leaves is safe, because the tail is dropped
   * before the collision check; had the snake grown on that move, it would
   * collide with its own tail.
   */
  lemma MoveIntoVacatedTail(snake: seq<Pos>, head: Pos, obstacles: seq<Pos>)
    requires |snake| >= 2
    requires head == snake[|snake| - 1] && head !in snake[..|snake| - 1]
    requires InGrid(head) && head !in obstacles
    ensures !Collides(Advance(snake, head, false), obstacles)
    ensures Collides(Advance(snake, head, true), obstacles)
  {
    assert Advance(snake, head, false)[1..] == snake[..|snake| - 1];
    assert Advance(snake, head, true)[1..][|snake| - 1] == head;
  }

  /** A cell where food may be placed: on the grid, on no segment and on no obstacle. */
  predicate FoodFree(cell: Pos, snake: seq<Pos>, obstacles: seq<Pos>) {
    InGrid(cell) && cell !in snake && cell !in obstacles
  }

  /** Points awarded per food at `level`. */
  function FoodPoints(level: int): nat {
    PointsPerFood(GetLevelZone(level).config.difficulty)
  }

  /** The level score that completes `level`. */
  function RequiredScore(level: int): int {
    DifficultySettings(GetLevelZone(level).config.difficulty).requiredScore
  }

  /** On every catalogue level, five foods complete the level and four do not. */
  lemma LevelTakesFiveFoods(level: int, k: nat)
    requires 1 <= level <= MAX_LEVEL
    ensures k * FoodPoints(level) >= RequiredScore(level) <==> k >= 5
    ensures FoodPoints(level) == PointsPerFood(ZONE_CONFIG[ZoneIndex(level)].config.difficulty)
  {
    GetLevelZoneOfCatalogueLevel(level);
    FifthFoodCompletes(GetLevelZone(level).config.difficulty, k);
  }

  /** The effect of the pause toggle on the status: RUNNING and PAUSED swap, others stay. */
  function AfterPause(s: GameStatus): GameStatus {
    match s
    case Running => Paused
    case Paused => Running
    case _ => s
  }

  lemma PauseToggles(s: GameStatus)
    ensures AfterPause(AfterPause(s)) == s
    ensures s != Running && s != Paused ==> AfterPause(s) == s
  {
  }

  // ---------------------------------------------------------------------------
  // Saved progress

  /**
   * The stored progress record as parsed: `unlockedLevels` may be absent, and
   * an absent `highScores` object reads as an empty map.
   */
  datatype Progress = Progress(unlockedLevels: Option<int>, highScores: map<Difficulty, int>)

  /** What the empty stored record '{}' parses to. */
  const NO_PROGRESS: Progress := Progress(None, map[])

  /** An empty store loads as one unlocked level and no high score for any difficulty. */
  lemma EmptyProgressDefaults(d: Difficulty)
    ensures LoadedUnlocked(NO_PROGRESS) == 1
    ensures Lookup(NO_PROGRESS.highScores, d) == None
    ensures OrDefault(Lookup(NO_PROGRESS.highScores, d), 0) == 0
  {
  }

  /** JavaScript's `v || fallback` for a number that may be absent: absent and 0 give the fallback. */
  function OrDefault(v: Option<int>, fallback: int): int {
    if v.Some? && v.value != 0 then v.value else fallback
  }

  function Lookup(m: map<Difficulty, int>, d: Difficulty): Option<int> {
    if d in m then Some(m[d]) else None
  }

  /** The record written back when progress is saved: each field is the larger of the stored and the current value. */
  function MergeProgress(existing: Progress, unlocked: int, difficulty: Difficulty, score: int): Progress {
    Progress(
      Some(Max(OrDefault(existing.unlockedLevels, 1), unlocked)),
      existing.highScores[difficulty := Max(OrDefault(Lookup(existing.highScores, difficulty), 0), score)])
  }

  /** The unlocked-level count read back from a stored record. */
  function LoadedUnlocked(p: Progress): int {
    OrDefault(p.unlockedLevels, 1)
  }

  /**
   * The merge keeps the larger unlocked count and the larger high score of the
   * current difficulty, and leaves every other difficulty's entry as stored.
   */
  lemma MergeKeepsMaximum(existing: Progress, unlocked: int, difficulty: Difficulty, score: int)
    ensures var r := MergeProgress(existing, unlocked, difficulty, score);
      && r.unlockedLevels.Some?
      && r.unlockedLevels.value >= unlocked
      && r.unlockedLevels.value >= OrDefault(existing.unlockedLevels, 1)
      && (r.unlockedLevels.value == unlocked || r.unlockedLevels.value == OrDefault(existing.unlockedLevels, 1))
      && difficulty in r.highScores
      && r.highScores[difficulty] >= score
      && r.highScores[difficulty] >= OrDefault(Lookup(existing.highScores, difficulty), 0)
      && (r.highScores[difficulty] == score || r.highScores[difficulty] == OrDefault(Lookup(existing.highScores, difficulty), 0))
      && (forall d :: d != difficulty ==> Lookup(r.highScores, d) == Lookup(existing.highScores, d))
  {
  }

  /** Saving and then loading never yields fewer unlocked levels than were current or already stored. */
  lemma SaveThenLoad(existing: Progress, unlocked: int, difficulty: Difficulty, score: int)
    ensures LoadedUnlocked(MergeProgress(existing, unlocked, difficulty, score)) >= unlocked
    ensures LoadedUnlocked(MergeProgress(existing, unlocked, difficulty, score)) >= LoadedUnlocked(existing)
  {
  }

  /**
   * Saving twice with the same unlocked count is saving once with the larger
   * score: a later, smaller score never overwrites a stored best.
   */
  lemma MergeTwice(existing: Progress, unlocked: int, difficulty: Difficulty, s1: int, s2: int)
    requires unlocked != 0
    ensures MergeProgress(MergeProgress(existing, unlocked, difficulty, s1), unlocked, difficulty, s2)
      == MergeProgress(existing, unlocked, difficulty, Max(s1, s2))
  {
    var once := MergeProgress(existing, unlocked, difficulty, s1);
    var best := Max(OrDefault(Lookup(existing.highScores, difficulty), 0), s1);
    assert Lookup(once.highScores, difficulty) == Some(best);
    assert once.highScores[difficulty := Max(OrDefault(Some(best), 0), s2)]
      == existing.highScores[difficulty := Max(OrDefault(Lookup(existing.highScores, difficulty), 0), Max(s1, s2))];
  }

  // ---------------------------------------------------------------------------
  // Keyboard

  datatype Command = Steer(toward: Direction) | Start | TogglePause

  /**
   * The action a key press triggers: arrows and WASD steer, space starts the
   * game from IDLE or GAME_OVER and toggles pause otherwise; other keys do nothing.
   */
  function KeyCommand(key: string, status: GameStatus): Option<Command> {
    if key == "ArrowUp" || key == "w" || key == "W" then Some(Steer(Up))
    else if key == "ArrowDown" || key == "s" || key == "S" then Some(Steer(Down))
    else if key == "ArrowLeft" || key == "a" || key == "A" then Some(Steer(Left))
    else if key == "ArrowRight" || key == "d" || key == "D" then Some(Steer(Right))
    else if key == " " then (if status == Idle || status == GameOver then Some(Start) else Some(TogglePause))
    else None
  }

  /** Space starts exactly when the game is idle or over; the letter keys steer in either case. */
  lemma KeyCommandCases(status: GameStatus)
    ensures KeyCommand(" ", status) == (if status == Idle || status == GameOver then Some(Start) else Some(TogglePause))
    ensures KeyCommand("w", status) == KeyCommand("W", status) == KeyCommand("ArrowUp", status) == Some(Steer(Up))
    ensures KeyCommand("s", status) == KeyCommand("S", status) == KeyCommand("ArrowDown", status) == Some(Steer(Down))
    ensures KeyCommand("a", status) == KeyCommand("A", status) == KeyCommand("ArrowLeft", status) == Some(Steer(Left))
    ensures KeyCommand("d", status) == KeyCommand("D", status) == KeyCommand("ArrowRight", status) == Some(Steer(Right))
    ensures KeyCommand("Enter", status) == None
  {
  }

  /** Every key other than the arrows, WASD and space triggers nothing. */
  lemma OtherKeysIgnored(key: string, status: GameStatus)
    requires key !in ["ArrowUp", "w", "W", "ArrowDown", "s", "S", "ArrowLeft", "a", "A", "ArrowRight", "d", "D", " "]
    ensures KeyCommand(key, status) == None
  {
  }
}
