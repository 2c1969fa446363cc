# Snake game: level catalogue and game state machine

This project models the core of a browser snake game on a 20 × 20 grid with 30 levels.

- `game_config.dfy` (module `GameConfig`) holds the level catalogue:
  - the grid constants and the four difficulty tiers (speed, score multiplier, required score);
  - the four zones that group the levels;
  - the per-level speed (`GetLevelSpeed`);
  - the two obstacle generators (`GenerateWalls`, `GenerateBox`), each a loop proved equal to a specification function;
  - the obstacle layout of every level, written as the `generateWalls` calls that build it (`LevelConfig`, `LevelObstacles`).
- `snake_rules.dfy` (module `SnakeRules`) holds the game's rules as functions on values:
  - directions and moves;
  - the initial snake and the search for its start cell;
  - the shape of the snake after a tick, collision, food placement and points;
  - the pause toggle, the max-merge of saved progress and the keyboard mapping.
- `snake_game.dfy` (module `SnakeGame`) holds `class Game`, the game composable's state as fields:
  - the snake is a `seq<Pos>`, head first, and `obstacles` is a `seq<Pos>`;
  - `status`, `score`, `levelScore`, `direction`, `nextDirection` and `currentLevel` are fields too;
  - the stored progress record is the field `stored`;
  - there is one method per operation, specified in terms of the `SnakeRules` functions.
- `wrappers.dfy` holds `Option`.

Two predicates describe the class's reachable states:
- `Valid()` says the following hold:
  - the level is in 1..30;
  - the difficulty is EASY, because nothing writes it;
  - the snake has at least three connected segments;
  - `levelScore <= score`;
  - the queued direction never reverses the current one;
  - while running or paused, the head is one step from the neck in `direction`;
  - the three centre cells are free of obstacles.
- `LayoutLoaded()` says the obstacles are the current level's layout.

Randomness is supplied by the caller:
- A placement search takes 100 draws, each in 3..16 on both axes (`ValidDraws`).
- Food placement takes the chosen cell, which must be free (`FoodFree`).

Behaviour of the code that is easy to miss, modelled as written:
- The collision check also runs after a move that completes the level. A colliding completing move therefore ends in GAME_OVER, after progress was already saved (`GameStep`).
- The completion callback does not look at the status. Called after such a collision, it still moves on and starts the next level (`FinishLevel`).
- `selectLevel` has no status guard (`SelectLevel`).
- Scores are reset only when starting from IDLE (`StartGame`).
- `startGame` lays out the level's obstacles again, after placing the snake against the obstacles already on the board (`StartGame`, `NextLevel`).
- The placement search gives up when its counter reaches 100. The 100th draw is made but never used; the centre is used instead (`Spawn`, `LastDrawDiscarded`).
- The snake-sized area check during placement is implied by the neighbourhood check, so it never changes the outcome (`AreaCheckImpliesNeighbourhood`).
- `unlockedLevels` is only ever set from storage (`LoadProgress`).

## Model

| member | source | states |
|---|---|---|
| GameConfig.DifficultyTiers | src/types/game.js:26-55 | in each tier 10 × multiplier is a whole number (10, 15, 20, 30 points) and the required score is five times it |
| GameConfig.FifthFoodCompletes | src/types/game.js:26-55 | in every tier, k foods reach the required score exactly when k >= 5 |
| GameConfig.ZoneSpeedMatchesTier | src/types/game.js:26-65 | each zone's base speed is the speed of its difficulty tier |
| GameConfig.ZoneLevelsContiguous | src/types/game.js:60-65 | the zones list levels 1-8, 9-16, 17-24 and 25-30 |
| GameConfig.ZoneMembership | src/types/game.js:60-65 | a level is in zone k exactly when it lies in that zone's block of levels |
| GameConfig.ZonesPartition | src/types/game.js:60-65 | a level is in some zone exactly when it is in 1..30, and then only in zone ZoneIndex(level) |
| GameConfig.FindZoneFindsFirst | src/types/game.js:68-75 | the zone scan finds a zone exactly when some zone lists the level; it then returns the first such zone with its key, otherwise the EASY zone without a key |
| GameConfig.GetLevelZoneOfCatalogueLevel | src/types/game.js:68-75 | for levels 1..30, getLevelZone returns the one zone that lists the level, with its key |
| GameConfig.GetLevelZoneFallback | src/types/game.js:68-75 | any other level gets the EASY zone, without a key |
| GameConfig.IndexOfFirst | src/types/game.js:80 | indexOf is -1 exactly when the value is absent, and otherwise the position of its first occurrence |
| GameConfig.IndexOfRange | src/types/game.js:80 | in a block of consecutive levels, a level's index is its distance from the first level |
| GameConfig.SpeedOfCatalogueLevel | src/types/game.js:78-83 | for levels 1..30 the speed is max(base − 15 × (level − first level of the zone), 50), and lies between 50 and the base speed |
| GameConfig.SpeedInZone | src/types/game.js:78-83 | the speed of the level d places into zone k is max(base_k − 15d, 50) |
| GameConfig.SpeedStepWithinZone | src/types/game.js:78-83 | within a zone, the next level's speed is the previous one less 15, floored at 50, so it never increases |
| GameConfig.SpeedFallback | src/types/game.js:74-83 | a level in no zone is not found in the EASY list (index −1), so its speed is 215 |
| GameConfig.WallsCells | src/types/game.js:86-96 | a wall has max(length, 0) cells, the i-th offset i from the start: rightwards when horizontal, downwards otherwise |
| GameConfig.WallsMembership | src/types/game.js:86-96 | a cell is on a wall exactly when it lies on the wall's row or column within its length |
| GameConfig.GenerateWalls | src/types/game.js:86-96 | the loop returns the wall's cells in push order, max(length, 0) of them, exactly the cells on the wall |
| GameConfig.BoxColumnMembership | src/types/game.js:100-106 | one column of the box holds exactly its kept cells below the row reached |
| GameConfig.BoxColumnsMembership | src/types/game.js:99-106 | the columns pushed so far hold exactly the kept cells of those columns |
| GameConfig.BoxMembership | src/types/game.js:98-108 | a filled box holds every cell of the rectangle; an open one holds exactly the cells in its first or last column or row |
| GameConfig.FilledColumnLength | src/types/game.js:100-106 | a filled column of height j has max(j, 0) cells |
| GameConfig.FilledColumnsLength | src/types/game.js:99-106 | i filled columns hold i × height cells |
| GameConfig.FilledBoxSize | src/types/game.js:98-108 | a filled box has width × height cells |
| GameConfig.GenerateBox | src/types/game.js:98-108 | the nested loops return the box's kept cells in column order |
| GameConfig.ExpandMembership | src/types/game.js:110-349 | a cell is among a layout's obstacles exactly when it lies on one of the layout's walls |
| GameConfig.LayoutOutsideCatalogue | src/types/game.js:110-349 | the catalogue holds exactly the levels 1..30; any other level has no walls and no obstacles |
| GameConfig.EasyLayoutsChecked | src/types/game.js:112-158 | each wall of levels 1-8 lies in the grid and avoids the centre cells |
| GameConfig.MediumLayoutsChecked | src/types/game.js:159-215 | each wall of levels 9-16 lies in the grid and avoids the centre cells |
| GameConfig.HardLayoutsChecked | src/types/game.js:217-283 | each wall of levels 17-24 lies in the grid and avoids the centre cells |
| GameConfig.HellLayoutsChecked | src/types/game.js:285-348 | each wall of levels 25-30 lies in the grid and avoids the centre cells |
| GameConfig.AllLayoutsChecked | src/types/game.js:110-349 | every wall of every level lies in the grid and avoids the centre cells |
| GameConfig.ExpandInGrid | src/types/game.js:110-349 | every obstacle of a layout whose walls lie in the grid is in the grid |
| GameConfig.ObstaclesInGrid | src/types/game.js:110-349 | every obstacle of every level has 0 <= x, y < 20 |
| GameConfig.CentreClearOfObstacles | src/types/game.js:110-349 | no level has an obstacle on (10,10), (9,10) or (8,10) |
| GameConfig.FirstLevelIsOpen | src/types/game.js:112 | level 1 has no obstacles |
| SnakeRules.ShiftInverse | src/composables/useSnakeGame.js:124-137 | a move lands on a neighbouring cell, and moving back the opposite way undoes it |
| SnakeRules.NoReversal | src/composables/useSnakeGame.js:184-198 | a turn other than the reverse never leads the head back onto the cell it came from |
| SnakeRules.InitialSnakeShape | src/composables/useSnakeGame.js:74-76 | the new snake is three connected cells (sx − i, sy), head first and facing right |
| SnakeRules.AreaOccupiedMembership | src/composables/useSnakeGame.js:80-91 | the area scan finds an obstacle exactly when some obstacle lies in the area |
| SnakeRules.NearObstacleMembership | src/composables/useSnakeGame.js:63-65 | the neighbourhood scan succeeds exactly when some obstacle is within two cells on both axes |
| SnakeRules.AreaCheckImpliesNeighbourhood | src/composables/useSnakeGame.js:60-66 | an occupied snake area always also means a nearby obstacle |
| SnakeRules.FirstClearFindsFirst | src/composables/useSnakeGame.js:56-66 | the draw scan finds nothing exactly when all draws are blocked, and otherwise the first clear draw |
| SnakeRules.SearchStop | src/composables/useSnakeGame.js:56-72 | when the search stops after `attempts` draws, the start is the last draw if the limit was not reached, else the centre |
| SnakeRules.SpawnOutcome | src/composables/useSnakeGame.js:56-72 | the start is the centre, or a draw in 3..16 with no obstacle within two cells |
| SnakeRules.LastDrawDiscarded | src/composables/useSnakeGame.js:60-72 | if the first 99 draws are blocked, the centre is used even when the 100th draw is clear |
| SnakeRules.SpawnedSnakeClear | src/composables/useSnakeGame.js:48-77 | when the centre cells are free, the placed snake has three cells, all in the grid and off the obstacles, and does not collide |
| SnakeRules.CentreFreeCells | src/composables/useSnakeGame.js:68-76 | the fallback snake at the centre misses the obstacles exactly when the cells (10, 10), (9, 10) and (8, 10) do |
| SnakeRules.CentreSnakeClear | src/composables/useSnakeGame.js:68-72 | on every level the cells of the centre fallback snake are free of obstacles |
| SnakeRules.AdvanceShape | src/composables/useSnakeGame.js:120-157 | after a move the head is first, the rest is the old body, and the length grows by one exactly when food was eaten |
| SnakeRules.AdvanceKeepsConnected | src/composables/useSnakeGame.js:121-139 | a one-step move keeps the body connected and leaves the head one step from the next segment in the direction moved |
| SnakeRules.MoveIntoVacatedTail | src/composables/useSnakeGame.js:154-181 | moving onto the cell the tail leaves is no collision, because the pop comes before the check; after growth it would be |
| SnakeRules.LevelTakesFiveFoods | src/composables/useSnakeGame.js:142-150 | on every level, five foods complete the level and four do not |
| SnakeRules.PauseToggles | src/composables/useSnakeGame.js:274-282 | pausing twice restores the status; statuses other than RUNNING and PAUSED are left alone |
| SnakeRules.MergeKeepsMaximum | src/composables/useSnakeGame.js:313-324 | the merge stores max(stored unlocked or 1, current) and max(stored best or 0, score) for the current difficulty, and keeps the other difficulties' entries |
| SnakeRules.SaveThenLoad | src/composables/useSnakeGame.js:303-340 | loading after a save never yields fewer unlocked levels than were current or stored |
| SnakeRules.MergeTwice | src/composables/useSnakeGame.js:313-324 | two saves with the same unlocked count equal one save of the larger score |
| SnakeRules.KeyCommandCases | src/composables/useSnakeGame.js:343-377 | arrows and WASD, in both cases, steer in every status; space starts from IDLE or GAME_OVER and toggles pause otherwise |
| SnakeRules.OtherKeysIgnored | src/composables/useSnakeGame.js:343-377 | every key other than the arrows, WASD and space triggers nothing, in every status |
| GameConfig.DifficultySettings | src/types/game.js:26-55 | the tier table: speed, multiplier as a count of halves (2, 3, 4, 6 for 1, 1.5, 2, 3) and required score; DifficultyTiers states what follows from it |
| GameConfig.PointsPerFood | src/types/game.js:26-55 | floor(10 × multiplier) of a tier, computed exactly on halves; DifficultyTiers proves it is 10, 15, 20 or 30 |
| GameConfig.FindZone | src/types/game.js:68-75 | the scan of the zone table in declaration order, returning the first zone that lists the level with its key, else EASY without a key; FindZoneFindsFirst characterises it |
| GameConfig.GetLevelZone | src/types/game.js:68-75 | getLevelZone: the scan over the whole zone table; GetLevelZoneOfCatalogueLevel and GetLevelZoneFallback give its result |
| GameConfig.IndexOf | src/types/game.js:80 | Array.indexOf on a level list; IndexOfFirst characterises it |
| GameConfig.GetLevelSpeed | src/types/game.js:78-83 | max(zone base speed − 15 × index in zone, 50); SpeedOfCatalogueLevel, SpeedStepWithinZone and SpeedFallback give its values |
| GameConfig.WallCell | src/types/game.js:89-93 | the cell pushed at step i: (x + i, y) when horizontal, (x, y + i) otherwise |
| GameConfig.Walls | src/types/game.js:86-96 | the cells generateWalls pushes, in order; WallsCells and WallsMembership characterise it |
| GameConfig.BoxColumn | src/types/game.js:101-105 | the cells the inner loop of generateBox pushes for one column |
| GameConfig.BoxColumns | src/types/game.js:100-106 | the cells the outer loop of generateBox pushes for the first i columns |
| GameConfig.Box | src/types/game.js:98-108 | the cells generateBox returns; BoxMembership and FilledBoxSize characterise it |
| GameConfig.Expand | src/types/game.js:110-349 | a layout's obstacles: the concatenation of its generateWalls results, as the spreads build it; ExpandMembership characterises it |
| GameConfig.LevelConfig | src/types/game.js:110-349 | the 30 layouts, entry k − 1 for level k, each as its generateWalls calls |
| GameConfig.LevelLayout | src/composables/useSnakeGame.js:96 | a level's walls, or none for a level outside the catalogue (`?.obstacles \|\| []`) |
| GameConfig.LevelObstacles | src/composables/useSnakeGame.js:94-100 | the obstacle cells initializeObstacles lays out for a level; ObstaclesInGrid and CentreClearOfObstacles hold for every level |
| SnakeRules.Opposite | src/composables/useSnakeGame.js:188-193 | the reverse of each direction; ShiftInverse proves it undoes a move |
| SnakeRules.Shift | src/composables/useSnakeGame.js:124-137 | the head moved one cell, with y growing downwards; ShiftInverse characterises it |
| SnakeRules.InitialSnake | src/composables/useSnakeGame.js:74-76 | the three cells (sx − i, sy) pushed head first; InitialSnakeShape characterises it |
| SnakeRules.AreaOccupied | src/composables/useSnakeGame.js:80-91 | whether some obstacle lies in the cells (x − i, y + j); AreaOccupiedMembership characterises it |
| SnakeRules.NearObstacle | src/composables/useSnakeGame.js:63-65 | the `.some` over the obstacles within two cells on both axes; NearObstacleMembership characterises it |
| SnakeRules.SpawnBlocked | src/composables/useSnakeGame.js:60-66 | the retry condition of the placement loop, apart from the attempt counter |
| SnakeRules.FirstClear | src/composables/useSnakeGame.js:56-66 | the first draw the placement loop accepts; FirstClearFindsFirst characterises it |
| SnakeRules.Spawn | src/composables/useSnakeGame.js:56-72 | the start cell: the first clear draw among the first 99, else the centre; SearchStop, SpawnOutcome and LastDrawDiscarded characterise it |
| SnakeRules.Advance | src/composables/useSnakeGame.js:139-156 | the body after the unshift, and the pop when no food was eaten; AdvanceShape and AdvanceKeepsConnected characterise it |
| SnakeRules.Collides | src/composables/useSnakeGame.js:160-181 | off the grid, on a segment at index 1 or later, or on an obstacle; MoveIntoVacatedTail and CheckCollision use it |
| SnakeRules.FoodPoints | src/composables/useSnakeGame.js:142-144 | the points one food scores on a level, from its zone's tier; LevelTakesFiveFoods gives its value |
| SnakeRules.RequiredScore | src/composables/useSnakeGame.js:41 | the level score that completes a level, from its zone's tier; LevelTakesFiveFoods relates it to the points |
| SnakeRules.AfterPause | src/composables/useSnakeGame.js:274-282 | the status after pauseGame; PauseToggles characterises it |
| SnakeRules.EmptyProgressDefaults | src/composables/useSnakeGame.js:335-336 | the empty record `'{}'` loads as one unlocked level and no high score for any difficulty |
| SnakeRules.OrDefault | src/composables/useSnakeGame.js:336 | JavaScript's `v \|\| fallback` on a possibly absent number: absent and 0 give the fallback |
| SnakeRules.MergeProgress | src/composables/useSnakeGame.js:313-324 | the merged record saveProgress writes; MergeKeepsMaximum, SaveThenLoad and MergeTwice characterise it |
| SnakeRules.LoadedUnlocked | src/composables/useSnakeGame.js:336 | `progress.unlockedLevels \|\| 1` |
| SnakeRules.KeyCommand | src/composables/useSnakeGame.js:343-377 | the action handleKeyPress takes for a key; KeyCommandCases and OtherKeysIgnored characterise it |
| SnakeGame.Game.Valid | src/composables/useSnakeGame.js:16-28 | the invariant of the composable's state that every game operation keeps; the progress operations touch only `unlockedLevels` and the stored record, which it does not constrain |
| SnakeGame.Game.LayoutLoaded | src/composables/useSnakeGame.js:94-100 | the obstacles on the board are the current level's layout |
| SnakeGame.Game.LevelAdvanced | src/composables/useSnakeGame.js:231-238 | the state nextLevel leaves below level 30, shared by NextLevel and FinishLevel |
| SnakeGame.Game.constructor | src/composables/useSnakeGame.js:381-387 | mounting loads progress, places the snake on the empty board, lays out level 1 (no obstacles) and places food; the result is a valid IDLE state |
| SnakeGame.Game.LoadProgress | src/composables/useSnakeGame.js:333-340 | the unlocked count becomes the stored count, or 1 when it is absent or zero |
| SnakeGame.Game.SaveProgress | src/composables/useSnakeGame.js:303-330 | the stored record becomes the max-merge of the old record and the current progress |
| SnakeGame.Game.IsAreaOccupied | src/composables/useSnakeGame.js:80-91 | the nested loops report whether an obstacle lies in the area |
| SnakeGame.Game.InitializeSnake | src/composables/useSnakeGame.js:48-77 | the snake becomes the three cells laid leftwards from the start the bounded search picks |
| SnakeGame.Game.InitializeObstacles | src/composables/useSnakeGame.js:94-100 | the obstacles become the current level's layout, or none outside the catalogue |
| SnakeGame.Game.GenerateFood | src/composables/useSnakeGame.js:103-117 | the food moves to the chosen free cell |
| SnakeGame.Game.CompleteLevel | src/composables/useSnakeGame.js:213-219 | the status becomes LEVEL_COMPLETE and progress is saved |
| SnakeGame.Game.MoveSnake | src/composables/useSnakeGame.js:120-157 | the direction becomes the queued one; the snake advances one cell, growing and scoring the level's points exactly when the head lands on food; new food is free; reaching the required level score completes the level |
| SnakeGame.Game.CheckCollision | src/composables/useSnakeGame.js:160-181 | true exactly when the head is off the grid, on a later segment or on an obstacle |
| SnakeGame.Game.ChangeDirection | src/composables/useSnakeGame.js:184-198 | the turn is queued only while running and only when it is not the reverse of the current direction |
| SnakeGame.Game.GameOver | src/composables/useSnakeGame.js:285-288 | the status becomes GAME_OVER and nothing else changes, so the invariant is kept |
| SnakeGame.Game.GameStep | src/composables/useSnakeGame.js:201-210 | outside RUNNING nothing changes; otherwise one move as MoveSnake, then GAME_OVER exactly when the moved snake collides, even after completion |
| SnakeGame.Game.StartGame | src/composables/useSnakeGame.js:256-271 | no-op while running; otherwise RUNNING heading right on the same obstacles, with a fresh snake that does not collide and new food; scores are zeroed only from IDLE |
| SnakeGame.Game.NextLevel | src/composables/useSnakeGame.js:231-238 | no-op on level 30; otherwise one level up with a zero level score, the new level's obstacles, and the game started there |
| SnakeGame.Game.FinishLevel | src/composables/useSnakeGame.js:220-227 | on level 30 the status becomes GAME_OVER and nothing else changes; otherwise it acts as NextLevel |
| SnakeGame.Game.SelectLevel | src/composables/useSnakeGame.js:241-247 | a level outside 1..30 is ignored; otherwise it becomes current, the level score is zeroed and its obstacles are laid out, whatever the status |
| SnakeGame.Game.PauseGame | src/composables/useSnakeGame.js:274-282 | RUNNING and PAUSED swap; every other status, and all board and score data, stay |
| SnakeGame.Game.ResetGame | src/composables/useSnakeGame.js:291-300 | back to IDLE with zero scores, a fresh snake on the unchanged obstacles, and new food |

## Left out

- Vue reactivity (`ref`, `reactive`, `computed`, lifecycle hooks): the state is plain fields, and the computed values (speed, zone, points, required score) are functions of the level.
- Timers (`setInterval`, `setTimeout`, `clearInterval`): only their effects on the state are kept. The tick is `GameStep` and the delayed completion callback is `FinishLevel`, which the caller may invoke at any time. The tick interval is `GetLevelSpeed` of the level that was current when the timer was last armed, in `startGame` or on resume in `pauseGame`. Changing the level while running (`selectLevel`, or `nextLevel` whose `startGame` returns at once) keeps the old interval, so ticks keep the previous level's speed. The model has no notion of tick timing.
- `localStorage`, `JSON.parse`/`JSON.stringify` and the try/catch logging: storage is the field `stored` holding the already parsed record. A malformed record, extra keys and non-numeric values are not modelled.
- `Math.random` and the unbounded food loop: the 100 draws of a placement search and the food cell are parameters. The food cell must be free, which is what the loop guarantees when it ends.
- The float score multiplier: it is held exactly as a count of halves, so 10 × multiplier is an integer and the floor is exact.
- Level names, zone names, icons and the other display strings; `selectDifficulty`, which only logs.
- `handleKeyPress`'s DOM wiring and `preventDefault`: `KeyCommand` is the pure key-to-command mapping, and the caller invokes the method it names.
- `generateBox` is not used by any level, and its `filled = false` default is a plain parameter.
- WallDirection: the source compares the direction with the string 'horizontal' and treats any other string as vertical. The model has exactly two directions.
- `initializeObstacles` copies each obstacle object so that the catalogue is not shared. Cells are values here, so the copy is an assignment.
- `currentLevel` is modelled as an integer. Non-integer levels, which would fall back to no obstacles, are not considered.
