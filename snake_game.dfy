/**
 * The game state machine: one object holding the reactive state of a game
 * session, one method per operation of the game composable. Randomness is
 * supplied by the caller (the 100 draws of a placement search and the cell
 * chosen for the next food); the persisted record is held in `stored`.
 */
module SnakeGame {
  import opened Wrappers
  import opened GameConfig
  import opened SnakeRules

  class Game {
    var status: GameStatus
    var score: nat
    var levelScore: nat
    var snake: seq<Pos>
    var food: Pos
    var direction: Direction
    var nextDirection: Direction
    var currentLevel: int
    var currentDifficulty: Difficulty
    var obstacles: seq<Pos>
    var unlockedLevels: int
    /** The progress record kept in persistent storage, as parsed. */
    var stored: Progress

    /**
     * The invariant every operation keeps. Together with LayoutLoaded it
     * describes every reachable state.
     */
    ghost predicate Valid()
      reads this
    {
      && 1 <= currentLevel <= MAX_LEVEL
      && CentreFree(obstacles)
      && currentDifficulty == Easy
      && |snake| >= INITIAL_SNAKE_LENGTH
      && Connected(snake)
      && levelScore <= score
      && nextDirection != Opposite(direction)
      && (status == Running || status == Paused ==> snake[0] == Shift(snake[1], direction))
    }

    /**
     * The obstacles on the board are the current level's layout. It reads only
     * the two fields it names, so every operation that changes neither keeps it.
     */
    ghost predicate LayoutLoaded()
      reads this`obstacles, this`currentLevel
    {
      obstacles == LevelObstacles(currentLevel)
    }

    /** The cell the head moves to on the next tick. */
    function NextHead(): Pos
      reads this
      requires |snake| > 0
    {
      Shift(snake[0], nextDirection)
    }

    /** Points per food on the current level. */
    function Points(): nat
      reads this
    {
      FoodPoints(currentLevel)
    }

    /** The level score that completes the current level. */
    function Required(): int
      reads this
    {
      RequiredScore(currentLevel)
    }

    /**
     * Mounting the game: the initial state, then progress is loaded, the snake
     * placed (while the obstacle list is still empty), the first level's
     * obstacles laid out and food placed.
     */
    constructor (saved: Progress, draws: seq<Pos>, foodCell: Pos)
      requires ValidDraws(draws)
      requires FoodFree(foodCell, InitialSnake(Spawn(draws, [])), [])
      ensures Valid() && LayoutLoaded()
      ensures status == Idle && score == 0 && levelScore == 0
      ensures snake == InitialSnake(Spawn(draws, [])) && food == foodCell
      ensures direction == Right && nextDirection == Right
      ensures currentLevel == 1 && obstacles == []
      ensures stored == saved && unlockedLevels == LoadedUnlocked(saved)
      ensures !Collides(snake, obstacles)
    {
      status := Idle;
      score := 0;
      levelScore := 0;
      snake := [];
      food := Pos(0, 0);
      direction := Right;
      nextDirection := Right;
      currentLevel := 1;
      currentDifficulty := Easy;
      obstacles := [];
      unlockedLevels := 1;
      stored := saved;
      new;
      LoadProgress();
      InitializeSnake(draws);
      InitialSnakeShape(Spawn(draws, []));
      SpawnedSnakeClear(draws, []);
      InitializeObstacles();
      FirstLevelIsOpen();
      assert obstacles == [];
      GenerateFood(foodCell);
    }

    /** Reads the stored unlocked-level count, 1 when absent or zero. */
    method LoadProgress()
      modifies this`unlockedLevels
      ensures unlockedLevels == LoadedUnlocked(stored)
    {
      var saved := stored.unlockedLevels;
      if saved.Some? && saved.value != 0 {
        unlockedLevels := saved.value;
      } else {
        unlockedLevels := 1;
      }
    }

    /** Writes back the larger of the stored and current unlocked count and high score. */
    method SaveProgress()
      modifies this`stored
      ensures stored == MergeProgress(old(stored), unlockedLevels, currentDifficulty, score)
    {
      var existing := stored;
      var unlocked := OrDefault(existing.unlockedLevels, 1);
      var best := OrDefault(Lookup(existing.highScores, currentDifficulty), 0);
      stored := Progress(
        Some(Max(unlocked, unlockedLevels)),
        existing.highScores[currentDifficulty := Max(best, score)]);
    }

    /** Whether an obstacle lies in the cells (x - i, y + j), 0 <= i < width, 0 <= j < height. */
    method IsAreaOccupied(x: int, y: int, width: int, height: int) returns (occupied: bool)
      ensures occupied == AreaOccupied(x, y, width, height, obstacles)
    {
      var i := 0;
      while i < width
        invariant 0 <= i <= Max(width, 0)
        invariant forall o :: o in obstacles ==> !InArea(o, x, y, i, height)
      {
        var j := 0;
        while j < height
          invariant 0 <= j <= Max(height, 0)
          invariant forall o :: o in obstacles ==> !InArea(o, x, y, i, height)
          invariant forall o :: o in obstacles ==> !(o.x == x - i && y <= o.y < y + j)
        {
          var cell := Pos(x - i, y + j);
          if cell in obstacles {
            AreaOccupiedMembership(x, y, width, height, obstacles);
            assert InArea(cell, x, y, width, height);
            return true;
          }
          j := j + 1;
        }
        i := i + 1;
      }
      AreaOccupiedMembership(x, y, width, height, obstacles);
      return false;
    }

    /** Places the snake: up to 100 draws, else the centre, laid out leftwards from the head. */
    method InitializeSnake(draws: seq<Pos>)
      requires ValidDraws(draws)
      modifies this`snake
      ensures snake == InitialSnake(Spawn(draws, obstacles))
    {
      var start := draws[0];
      var attempts := 1;
      var occupied := IsAreaOccupied(start.x, start.y, INITIAL_SNAKE_LENGTH, 1);
      while attempts < MAX_SPAWN_ATTEMPTS && (occupied || NearObstacle(start, obstacles))
        invariant 1 <= attempts <= MAX_SPAWN_ATTEMPTS
        invariant start == draws[attempts - 1]
        invariant occupied == AreaOccupied(start.x, start.y, INITIAL_SNAKE_LENGTH, 1, obstacles)
        invariant forall k :: 0 <= k < attempts - 1 ==> SpawnBlocked(draws[k], obstacles)
      {
        start := draws[attempts];
        attempts := attempts + 1;
        occupied := IsAreaOccupied(start.x, start.y, INITIAL_SNAKE_LENGTH, 1);
      }
      SearchStop(draws, obstacles, attempts);
      if attempts >= MAX_SPAWN_ATTEMPTS {
        start := CentreSpawn();
      }
      var body := [];
      var i := 0;
      while i < INITIAL_SNAKE_LENGTH
        invariant 0 <= i <= INITIAL_SNAKE_LENGTH
        invariant body == InitialSnake(start)[..i]
      {
        body := body + [Pos(start.x - i, start.y)];
        i := i + 1;
      }
      snake := body;
    }

    /**
     * Lays out the current level's obstacles. The element-wise copy that keeps
     * the layout table from being shared is implicit here: cells are values.
     */
    method InitializeObstacles()
      modifies this`obstacles
      ensures LayoutLoaded()
    {
      obstacles := LevelObstacles(currentLevel);
    }

    /** Places food on `cell`, which the caller chose among the free cells. */
    method GenerateFood(cell: Pos)
      requires FoodFree(cell, snake, obstacles)
      modifies this`food
      ensures food == cell
    {
      food := cell;
    }

    /** Ends the level: LEVEL_COMPLETE, and progress is saved. */
    method CompleteLevel()
      modifies this`status, this`stored
      ensures status == LevelComplete
      ensures stored == MergeProgress(old(stored), unlockedLevels, currentDifficulty, score)
    {
      status := LevelComplete;
      SaveProgress();
    }

    /**
     * Moves the snake one cell in the queued direction. Eating grows the snake,
     * scores the level's points and places new food; reaching the required
     * level score completes the level. Otherwise the tail is dropped.
     */
    method MoveSnake(newFood: Pos)
      requires Valid()
      requires NextHead() == food ==> FoodFree(newFood, [NextHead()] + snake, obstacles)
      modifies this`direction, this`snake, this`score, this`levelScore, this`food, this`status, this`stored
      ensures Valid()
      ensures direction == old(nextDirection)
      ensures var head := Shift(old(snake)[0], old(nextDirection));
        var ate := head == old(food);
        && snake == Advance(old(snake), head, ate)
        && score == old(score) + (if ate then Points() else 0)
        && levelScore == old(levelScore) + (if ate then Points() else 0)
        && food == (if ate then newFood else old(food))
        && (ate ==> FoodFree(food, snake, obstacles))
        && if ate && levelScore >= Required() then
             status == LevelComplete && stored == MergeProgress(old(stored), unlockedLevels, currentDifficulty, score)
           else
             status == old(status) && stored == old(stored)
    {
      AdvanceKeepsConnected(snake, nextDirection, NextHead() == food);
      direction := nextDirection;
      var head := Shift(snake[0], direction);
      var body := snake;
      snake := [head] + snake;
      if head == food {
        var points := Points();
        score := score + points;
        levelScore := levelScore + points;
        GenerateFood(newFood);
        if levelScore >= Required() {
          CompleteLevel();
          return;
        }
      } else {
        snake := snake[..|snake| - 1];
        assert snake == Advance(body, head, false);
      }
    }

    /** Whether the head is off the grid, on the body or on an obstacle. */
    method CheckCollision() returns (hit: bool)
      requires |snake| > 0
      ensures hit == Collides(snake, obstacles)
    {
      var head := snake[0];
      if head.x < 0 || head.x >= GRID_SIZE || head.y < 0 || head.y >= GRID_SIZE {
        return true;
      }
      var i := 1;
      while i < |snake|
        invariant 1 <= i <= |snake|
        invariant head !in snake[1..i]
      {
        if head == snake[i] {
          assert snake[1..][i - 1] == head;
          return true;
        }
        i := i + 1;
      }
      assert snake[1..i] == snake[1..];
      return head in obstacles;
    }

    /** Queues a turn while running, unless it reverses the current direction. */
    method ChangeDirection(d: Direction)
      requires Valid()
      modifies this`nextDirection
      ensures Valid()
      ensures nextDirection == if old(status) == Running && d != Opposite(direction) then d else old(nextDirection)
    {
      if status != Running {
        return;
      }
      if d != Opposite(direction) {
        nextDirection := d;
      }
    }

    /** Ends the game. */
    method GameOver()
      requires Valid()
      modifies this`status
      ensures Valid()
      ensures status == GameStatus.GameOver
    {
      status := GameStatus.GameOver;
    }

    /**
     * One tick while running: move, then check for collision. The collision
     * check also runs after a completing move, so a collision turns
     * LEVEL_COMPLETE into GAME_OVER. A tick in any other status does nothing.
     */
    method GameStep(newFood: Pos)
      requires Valid()
      requires status == Running && NextHead() == food ==> FoodFree(newFood, [NextHead()] + snake, obstacles)
      modifies this`direction, this`snake, this`score, this`levelScore, this`food, this`status, this`stored
      ensures Valid()
      ensures old(status) != Running ==> unchanged(this)
      ensures old(status) == Running ==>
        var head := Shift(old(snake)[0], old(nextDirection));
        var ate := head == old(food);
        var completed := ate && levelScore >= Required();
        && direction == old(nextDirection)
        && snake == Advance(old(snake), head, ate)
        && score == old(score) + (if ate then Points() else 0)
        && levelScore == old(levelScore) + (if ate then Points() else 0)
        && food == (if ate then newFood else old(food))
        && stored == (if completed then MergeProgress(old(stored), unlockedLevels, currentDifficulty, score) else old(stored))
        && status == (if Collides(snake, obstacles) then GameStatus.GameOver else if completed then LevelComplete else Running)
    {
      if status != Running {
        return;
      }
      MoveSnake(newFood);
      var hit := CheckCollision();
      if hit {
        GameOver();
      }
    }

    /**
     * Starts play from any status but RUNNING: places the snake, lays out the
     * level, places food and heads right; scores reset only from IDLE.
     */
    method StartGame(draws: seq<Pos>, foodCell: Pos)
      requires Valid() && LayoutLoaded() && ValidDraws(draws)
      requires status != Running ==> FoodFree(foodCell, InitialSnake(Spawn(draws, obstacles)), obstacles)
      modifies this`status, this`score, this`levelScore, this`snake, this`obstacles, this`food
      modifies this`direction, this`nextDirection
      ensures Valid() && LayoutLoaded()
      ensures old(status) == Running ==> unchanged(this)
      ensures old(status) != Running ==>
        && status == Running && direction == Right && nextDirection == Right
        && obstacles == old(obstacles)
        && snake == InitialSnake(Spawn(draws, obstacles)) && food == foodCell
        && (if old(status) == Idle then score == 0 && levelScore == 0
            else score == old(score) && levelScore == old(levelScore))
        && !Collides(snake, obstacles)
    {
      if status == Running {
        return;
      }
      InitializeSnake(draws);
      InitialSnakeShape(Spawn(draws, obstacles));
      SpawnedSnakeClear(draws, obstacles);
      ghost var layout := obstacles;
      InitializeObstacles();
      assert obstacles == layout;
      GenerateFood(foodCell);
      if status == Idle {
        score := 0;
        levelScore := 0;
      }
      direction := Right;
      nextDirection := Right;
      status := Running;
    }

    /**
     * The state after moving on to the next level: one level up with a zero
     * level score, and running. A game that was running keeps its snake, food,
     * score and heading; otherwise the level was started afresh, as StartGame
     * does, on the new level's obstacles.
     */
    twostate predicate LevelAdvanced(draws: seq<Pos>, foodCell: Pos)
      reads this
      requires |draws| == MAX_SPAWN_ATTEMPTS
    {
      && currentLevel == old(currentLevel) + 1 && levelScore == 0 && status == Running
      && (old(status) == Running ==>
            snake == old(snake) && food == old(food) && score == old(score)
            && direction == old(direction) && nextDirection == old(nextDirection))
      && (old(status) != Running ==>
            snake == InitialSnake(Spawn(draws, obstacles)) && food == foodCell
            && direction == Right && nextDirection == Right
            && score == (if old(status) == Idle then 0 else old(score))
            && !Collides(snake, obstacles))
    }

    /** Advances to the next level and starts it; nothing happens on the last level. */
    method NextLevel(draws: seq<Pos>, foodCell: Pos)
      requires Valid() && LayoutLoaded() && ValidDraws(draws)
      requires currentLevel < MAX_LEVEL && status != Running ==>
        FoodFree(foodCell, InitialSnake(Spawn(draws, LevelObstacles(currentLevel + 1))), LevelObstacles(currentLevel + 1))
      modifies this`currentLevel, this`levelScore, this`obstacles
      modifies this`status, this`score, this`snake, this`food, this`direction, this`nextDirection
      ensures Valid() && LayoutLoaded()
      ensures old(currentLevel) >= MAX_LEVEL ==> unchanged(this)
      ensures old(currentLevel) < MAX_LEVEL ==> LevelAdvanced(draws, foodCell)
    {
      if currentLevel >= MAX_LEVEL {
        return;
      }
      currentLevel := currentLevel + 1;
      levelScore := 0;
      InitializeObstacles();
      CentreSnakeClear(currentLevel);
      StartGame(draws, foodCell);
    }

    /**
     * The callback scheduled on level completion: GAME_OVER after the last
     * level, otherwise the next level.
     */
    method FinishLevel(draws: seq<Pos>, foodCell: Pos)
      requires Valid() && LayoutLoaded() && ValidDraws(draws)
      requires currentLevel < MAX_LEVEL && status != Running ==>
        FoodFree(foodCell, InitialSnake(Spawn(draws, LevelObstacles(currentLevel + 1))), LevelObstacles(currentLevel + 1))
      modifies this`currentLevel, this`levelScore, this`obstacles
      modifies this`status, this`score, this`snake, this`food, this`direction, this`nextDirection
      ensures Valid() && LayoutLoaded()
      ensures old(currentLevel) >= MAX_LEVEL ==>
        && status == GameStatus.GameOver && currentLevel == old(currentLevel) && obstacles == old(obstacles)
        && snake == old(snake) && food == old(food) && score == old(score) && levelScore == old(levelScore)
        && direction == old(direction) && nextDirection == old(nextDirection)
      ensures old(currentLevel) < MAX_LEVEL ==> LevelAdvanced(draws, foodCell)
    {
      if currentLevel >= MAX_LEVEL {
        GameOver();
      } else {
        NextLevel(draws, foodCell);
      }
    }

    /** Jumps to `level` when it is a catalogue level, resetting the level score; the status is not consulted. */
    method SelectLevel(level: int)
      requires Valid()
      modifies this`currentLevel, this`levelScore, this`obstacles
      ensures Valid()
      ensures 1 <= level <= MAX_LEVEL ==> currentLevel == level && levelScore == 0 && LayoutLoaded()
      ensures !(1 <= level <= MAX_LEVEL) ==> unchanged(this)
    {
      if 1 <= level <= MAX_LEVEL {
        currentLevel := level;
        levelScore := 0;
        InitializeObstacles();
        CentreSnakeClear(currentLevel);
      }
    }

    /** Toggles between RUNNING and PAUSED; any other status is left alone. */
    method PauseGame()
      requires Valid()
      modifies this`status
      ensures Valid()
      ensures status == AfterPause(old(status))
    {
      if status == Running {
        status := Paused;
      } else if status == Paused {
        status := Running;
      }
    }

    /** Back to IDLE with zero scores, a freshly placed snake and new food; the level is kept. */
    method ResetGame(draws: seq<Pos>, foodCell: Pos)
      requires Valid() && LayoutLoaded() && ValidDraws(draws)
      requires FoodFree(foodCell, InitialSnake(Spawn(draws, obstacles)), obstacles)
      modifies this`status, this`score, this`levelScore, this`snake, this`obstacles, this`food
      ensures Valid() && LayoutLoaded()
      ensures status == Idle && score == 0 && levelScore == 0
      ensures obstacles == old(obstacles) && snake == InitialSnake(Spawn(draws, obstacles)) && food == foodCell
    {
      status := Idle;
      score := 0;
      levelScore := 0;
      InitializeSnake(draws);
      InitialSnakeShape(Spawn(draws, obstacles));
      ghost var layout := obstacles;
      InitializeObstacles();
      assert obstacles == layout;
      GenerateFood(foodCell);
    }
  }
}
