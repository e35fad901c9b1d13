# Pac-Man simulation core in Dafny

This project models the simulation core of a Pac-Man game written in
Python. The core covers:

- the fixed 21 x 19 board and its cell queries (`world/board.py`);
- Pac-Man, who moves one grid cell at a time, eats food and power pellets,
  and loses lives (`entities/player.py`);
- the four ghosts Blinky, Pinky, Inky and Clyde, which step on every 20th
  call and pick their step by the rules of their kind (`entities/ghosts.py`);
- the game engine: game states, level setup, input gating and the
  per-frame update (`core/game.py`);
- the top-10 score ranking (`data/score_manager.py`).

Each source file gets one Dafny module:

| file | module | form |
|---|---|---|
| `common.dfy` | `Common` | shared positions, the scan order of the four directions, Manhattan distance |
| `board.dfy` | `Board` | the board is a value (`BoardGenerator`) with pure queries; the scans of the board are methods with loops, proved against recursive specification functions |
| `player.dfy` | `Player` | `class PacMan` with the source's fields; one call of `move` is specified by the function `MoveOutcomeOf` |
| `ghosts.dfy` | `Ghosts` | `class Ghost` with the source's fields; the four subclasses share one `Move`, which selects on the ghost's kind; the scans are loops, and the decision rules are the function `PlanFor` |
| `game.dfy` | `Game` | `class GameCore`; one frame of `update` is specified phase by phase on the value `World` |
| `scores.dfy` | `Scores` | `class ScoreManager`; loading, sorting and truncation are functions with their ranking properties proved |

Random choices (a wandering ghost, where an eaten ghost returns, where
Pac-Man respawns) are nondeterministic: the model allows any element of
the candidate list. The JSON scores file is an input value, not a file.

## Model

| member | source | states |
|---|---|---|
| Board.GenerateMaze | world/board.py:87-89 | the maze handed out has 21 rows of 19 columns |
| Board.NewBoardGenerator | world/board.py:79-85 | a new generator is consistent (its dimensions match its maze), is 21 x 19 and holds the fixed template |
| Board.ValidPositionIsTheBox | world/board.py:93-95 | on the template a cell is valid exactly when 0 <= row < 21 and 0 <= col < 19 |
| Board.OutsideIsBlocked | world/board.py:97-135 | a cell off the board counts as a wall, is neither door nor house, and neither Pac-Man nor a ghost may enter it |
| Board.PacmanCellsAreGhostCells | world/board.py:115-135 | every cell Pac-Man may enter a ghost may enter too, and Pac-Man's cells are exactly the in-bounds cells holding PATH (0) |
| Board.TemplateHoldsOnlyCellCodes | world/board.py:14-44 | every cell of the template holds one of the four cell codes 0-3 |
| Board.CellKindsPartitionTheBoard | world/board.py:97-135 | on a board of cell codes a ghost may enter exactly the non-wall cells, which are PATH, door or house, and every valid cell is a wall or Pac-Man's, never both |
| Board.GetCellCenterPixel | world/board.py:137-141 | the pixel lies in the cell's 30 x 30 tile, 15 pixels in from its left and top edges |
| Board.PixelToGrid | world/board.py:143-147 | the returned cell is a tile that contains the pixel (floor division, so negative pixels also work) |
| Board.TileOfPixelIsUnique | world/board.py:143-147 | a pixel coordinate lies in only one tile |
| Board.PixelRoundTrip | world/board.py:137-147 | converting a cell's centre pixel back yields the cell |
| Board.PixelToGridIffInsideTile | world/board.py:143-147 | a pixel maps to a cell exactly when it lies inside that cell's tile |
| Board.HandleTunnelTeleport | world/board.py:151-164 | the row is never changed by the teleport |
| Board.TunnelWrapsAround | world/board.py:151-164 | off the tunnel row, or inside the board, nothing changes; on the tunnel row every column left of the board comes back on the right edge and every column right of it on the left edge, so the result is always on the board |
| Board.TunnelIdempotent | world/board.py:151-164 | teleporting twice is the same as teleporting once |
| Board.TemplateTunnelLinksItsEnds | world/board.py:67-69 | on the template both tunnel cells are open, and stepping out of one re-enters at the other |
| Board.RowPathsFacts | world/board.py:174-177 | the inner scan of one row collects exactly that row's PATH cells, in column order |
| Board.PathsUpToFacts | world/board.py:173-178 | the scan of the first m rows collects exactly their PATH cells, in strict row-major order |
| Board.WalkableIsExactlyThePathCells | world/board.py:168-178 | the walkable list holds exactly the cells Pac-Man may enter, in strict row-major order, without repeats |
| Board.GetWalkablePositions | world/board.py:168-178 | the nested loops return the walkable list |
| Board.PlaceAllFood | world/board.py:180-206 | food is placed on a cell exactly when Pac-Man may enter it and it is not excluded; a missing exclusion set excludes nothing |
| Board.GetPowerPellets | world/board.py:208-210 | the set holds exactly the four listed power-pellet cells, with no duplicates lost |
| Board.GetSpawnPositions | world/board.py:214-231 | the record holds four ghost spawns and four power pellets |
| Board.TemplateSpawnCellKinds | world/board.py:47-65 | on the template Pac-Man's spawn and the pellets are PATH, the house exit is the door, three ghost spawns are inside the house and the fourth, (10, 11), is a WALL cell |
| Board.NeighborsUpToFacts | world/board.py:244-258 | the first k steps of the neighbour scan keep at most k cells, exactly the adjacent admissible ones among those k directions |
| Board.NeighborsInScanOrder | world/board.py:244-258 | the neighbours come out in the order up, down, left, right |
| Board.GetNeighbors | world/board.py:233-258 | at most four neighbours, exactly the orthogonally adjacent cells the entity kind may enter, in scan order |
| Player.FromNameIsInjective | entities/player.py:32-33 | a direction string is stored without loss: it reads back unchanged, and two strings give the same direction exactly when they are equal |
| Player.Offset | entities/player.py:56-65 | a direction moves by one of the four unit steps, or not at all |
| Player.OffsetMatchesScanOrder | entities/player.py:56-65 | "UP", "DOWN", "LEFT", "RIGHT" move by the ghosts' scan steps in that order, and no other string (nor no direction) moves |
| Player.EatAt | entities/player.py:73-83 | neither item set grows, at most the arrival cell is removed, and points are earned exactly when the cell held food or a pellet |
| Player.EatAtAccounting | entities/player.py:73-83 | exactly one item is eaten when the cell holds any, and the points are 10 per food and 50 per pellet eaten (food first) |
| Player.MoveCommitsOnlyToOpenCells | entities/player.py:57-118 | a committed step lands on an open cell one step along the new facing; the facing is always tried first; it changes only to a different requested direction and only when the facing was blocked; a refused move changes nothing |
| Player.MoveEatsAtMostOneItem | entities/player.py:69-118 | in every case at most one item is eaten, at the new cell, and the score rises by its value: 0, 10 or 50 |
| Player.CommitAccounting | entities/player.py:69-84 | a committed step eats at most the item on its cell and scores exactly its value |
| Player.PacMan.constructor | entities/player.py:19-33 | a new Pac-Man stands on the given cell with the given lives, no score, facing RIGHT and no queued direction |
| Player.PacMan.Move | entities/player.py:35-118 | the request is queued, lives are kept, and position, facing, score and both item sets change exactly as MoveOutcomeOf states |
| Player.PacMan.LoseLife | entities/player.py:145-153 | one life fewer, and the answer is whether any is left |
| Player.PacMan.ResetPosition | entities/player.py:155-165 | Pac-Man stands on the new cell facing RIGHT with no queued direction; score and lives are untouched |
| Ghosts.CandidatesUpToFacts | entities/ghosts.py:92-103 | the first k steps of the scan keep at most k cells, exactly those adjacent along those directions that are inside the maze, hold 0 and are not the U-turn |
| Ghosts.CandidatesInScanOrder | entities/ghosts.py:94-103 | the valid moves come out in the order up, down, left, right |
| Ghosts.ValidMovesAreOpenNeighbours | entities/ghosts.py:88-103 | at most four valid moves, exactly the open orthogonal neighbours other than the U-turn cell, in scan order |
| Ghosts.UTurnAvoidanceIsInert | entities/ghosts.py:163-165 | with last direction (0, 0), which every move leaves behind, the U-turn test excludes nothing |
| Ghosts.HousedSpawnsHaveNoMoves | entities/ghosts.py:88-103 | on the template the three ghosts spawned inside the house have no valid move, whatever their last direction |
| Ghosts.BoxedInHasNoMoves | entities/ghosts.py:88-103 | on the template no cell (10, 8)-(10, 10) inside the house has a valid move |
| Ghosts.LastSpawnStepsEast | entities/ghosts.py:88-103 | from the fourth spawn (10, 11) the only valid move is (10, 12) |
| Ghosts.HouseSurroundings | world/board.py:31-35 | around the ghost house only (10, 12) is open |
| Ghosts.OpenNeighboursDecideMoves | entities/ghosts.py:88-103 | with no U-turn exclusion the valid moves are decided by which of the four neighbours are open, in scan order |
| Ghosts.NearestFirstIsFirstMinimum | entities/ghosts.py:113-132 | the target search finds no move exactly when there are no candidates; otherwise it finds the first candidate of least Manhattan distance |
| Ghosts.FirstNearestExtends | entities/ghosts.py:127-130 | a new candidate becomes the best only when strictly closer than the best so far |
| Ghosts.NearestFirstStep | entities/ghosts.py:121-130 | one scan step of the target search in terms of the valid moves so far |
| Ghosts.FarthestAlongIsFirstMaximum | entities/ghosts.py:254-267 | the flee search finds no move exactly when there are no candidates; otherwise it finds the first candidate whose step best points away from Pac-Man |
| Ghosts.FirstFarthestExtends | entities/ghosts.py:263-266 | a new candidate becomes the best only when strictly better aligned than the best so far |
| Ghosts.FarthestAlongStep | entities/ghosts.py:257-266 | one scan step of the flee search in terms of the valid moves so far |
| Ghosts.Clamp | entities/ghosts.py:203 | the clamp lands in [0, hi], leaves values in range alone and sends values below or above to the nearer end |
| Ghosts.PinkyTarget | entities/ghosts.py:198-203 | Pinky's target is always a cell of the maze |
| Ghosts.PinkyAimsAhead | entities/ghosts.py:198-203 | the target is the cell two steps ahead of Pac-Man whenever that cell is on the board, and Pac-Man's own cell when no known direction is given |
| Ghosts.PlanRules | entities/ghosts.py:142-332 | with no Pac-Man position, or while vulnerable, a ghost wanders; otherwise Blinky chases Pac-Man, Pinky heads for its clamped target two cells ahead of Pac-Man (wandering when Pac-Man's direction is missing or empty), Inky flees inside distance 5 and wanders beyond it, and Clyde flees inside distance 8 and chases beyond it |
| Ghosts.PlannedStepIsValidMove | entities/ghosts.py:150-166 | whatever the plan, the chosen step is one of the valid moves |
| Ghosts.NearestFirstIsCandidate | entities/ghosts.py:113-132 | the target search returns a candidate |
| Ghosts.FarthestAlongIsCandidate | entities/ghosts.py:254-267 | the flee search returns a candidate |
| Ghosts.VulnerabilityRunsOut | entities/ghosts.py:52-62 | a vulnerable ghost with timer t stays vulnerable for t - 1 updates and is calm, with both timers zero, from the t-th on |
| Ghosts.CalmIsStable | entities/ghosts.py:52-62 | the update leaves a ghost that is not vulnerable unchanged |
| Ghosts.GhostStepFacts | entities/ghosts.py:142-169 | one move call keeps the counter in [0, 20); the ghost changes cell only on the 20th call, to an open orthogonal neighbour, and then its last direction is (0, 0); a calm ghost stays calm |
| Ghosts.Ghost.constructor | entities/ghosts.py:19-39 | a new ghost stands on its spawn with counter 0, last direction (0, 0), not vulnerable and both timers 0 |
| Ghosts.Ghost.UpdateVulnerability | entities/ghosts.py:52-62 | the state changes as Decay states: both timers count down while vulnerable, and the ghost is calm once the timer is used up |
| Ghosts.Ghost.GetValidMoves | entities/ghosts.py:88-103 | the loop returns the valid moves |
| Ghosts.Ghost.ChooseRandomMove | entities/ghosts.py:105-111 | no move exactly when there are no valid moves; otherwise one of them |
| Ghosts.Ghost.MoveTowardsTarget | entities/ghosts.py:113-132 | the loop returns the first valid move nearest the target |
| Ghosts.Ghost.FleeFrom | entities/ghosts.py:246-267 | the loop returns the first valid move best aligned away from Pac-Man |
| Ghosts.Ghost.ChooseNextPosition | entities/ghosts.py:150-161 | the step chosen is one the ghost's plan allows |
| Ghosts.Ghost.Move | entities/ghosts.py:142-169 | the counter stays in [0, 20) and the state changes by one GhostStep: the counter rises, or on the 20th call the ghost takes a step its plan allows; in both cases the vulnerability decays afterwards |
| Game.Fps | core/game.py:196-203 | the frame rate never exceeds 120, is at least 60 from level 1 on, and is either the cap or 60 plus 10 per level above the first |
| Game.FpsIsMonotone | core/game.py:196-203 | a later level never runs slower, and level 7 on runs at the cap |
| Game.SpawnIsReady | core/game.py:71-81 | a level's starting positions put Pac-Man on an open cell and every ghost on a spawn cell with its counter in range |
| Game.PacmanStepFacts | core/game.py:134-153 | Pac-Man's step keeps his lives, lands on an open cell one step along his new facing, eats at most one item and scores exactly its value |
| Game.PacmanStepIsMove | core/game.py:134-153 | the update's pre-check agrees with move: whenever the update calls move, move's first attempt succeeds |
| Game.NamelessFacingFreezes | core/game.py:134-153 | with a facing that is not one of the four names, on an open cell, an update keeps Pac-Man in place and replaces the queued direction by that facing, whatever was requested |
| Game.OpenFacingDiscardsTurn | core/game.py:134-142 | while the cell ahead is open Pac-Man steps there and keeps his facing, and whatever direction was queued is replaced by the facing, so a different request is discarded |
| Game.WallEastOfRespawnSpot | world/board.py:29 | on the template (6, 12) is open and (6, 13) is a wall |
| Game.RespawnNextToWallFreezes | core/game.py:134-153 | after a respawn on (6, 12) with nothing queued, the first update adopts the missing direction and keeps Pac-Man in place |
| Game.FirstDeadly | core/game.py:160-189 | the collision loop stops at the first ghost on Pac-Man's cell that is not vulnerable, or runs through all of them |
| Game.CollisionOutcomes | core/game.py:160-189 | every ghost met before the first deadly one is vulnerable, at most one ghost is eaten per ghost passed, and without a vulnerable ghost none is eaten |
| Game.CapturesBound | core/game.py:160-176 | no more ghosts are eaten than have been examined |
| Game.NoCapturesWithoutVulnerable | core/game.py:160-176 | with no vulnerable ghost, no ghost is eaten |
| Game.RespawnCandidates | core/game.py:180-183 | the respawn candidates are exactly the walkable cells inside rows 3-17 and columns 3-15 |
| Game.RespawnCellsAreOpen | core/game.py:180-186 | every cell Pac-Man may respawn on is open |
| Game.OpenBoxCellIsCandidate | core/game.py:180-183 | every cell of the respawn box that Pac-Man may enter is a respawn candidate |
| Game.RespawnSpotIsCandidate | core/game.py:180-183 | (6, 12) is a respawn candidate on the template |
| Game.TemplateIsPlayable | core/game.py:35 | the board the engine builds is consistent and Pac-Man's spawn is open on it |
| Game.CalmAll | core/game.py:120-123 | every ghost is calmed and none is added or lost |
| Game.ExpireFacts | core/game.py:114-123 | the countdown changes only the flag, the timer and the ghosts' vulnerability; it runs only while a pellet is active, and at expiry every ghost is calm |
| Game.PacPhaseFacts | core/game.py:130-153 | Pac-Man's phase keeps the ghosts, the power pellet and his lives, keeps him on an open cell, adds no item and scores exactly what it eats |
| Game.GhostsMovedFacts | core/game.py:155-157 | the ghosts' phase keeps every counter in range and every ghost on a spawn cell or an open cell, and makes no calm ghost vulnerable |
| Game.CollidedFacts | core/game.py:159-189 | the collision phase keeps the item sets, costs at most one life, never lowers the score, ends playing or over, and keeps Pac-Man on an open cell |
| Game.FrameSummary | core/game.py:107-189 | over one frame the game ends playing or over, at most one life is lost, the score never falls, no item is added, the level's ground rules are kept, and a quiet game stays quiet |
| Game.MovesKeepReady | core/game.py:114-157 | the moves before the collision check keep Pac-Man on an open cell and the ghosts placed |
| Game.FrameKeepsReady | core/game.py:107-189 | a frame keeps Pac-Man on an open cell and the ghosts placed |
| Game.SpawnGhosts | core/game.py:74-81 | with at least four spawn points, one new ghost of each kind in the order Blinky, Pinky, Inky, Clyde stands calm on its point; with fewer, there are no ghosts |
| Game.GameCore.constructor | core/game.py:31-47 | a new engine is in MENU at level 1 with no Pac-Man, no ghosts, no food, the four power pellets and the fixed board |
| Game.GameCore.SetupLevel | core/game.py:57-88 | a fresh Pac-Man on his spawn with 3 lives and no score, the four ghosts in formation, food on every PATH cell but the exclusions; game state, level and power pellets are kept |
| Game.GameCore.StartNewGame | core/game.py:49-55 | level 1, PLAYING, no active pellet, and a level set up: a fresh Pac-Man, the ghosts in formation, and food on every PATH cell but the spawns and the remaining pellets |
| Game.GameCore.HandleInput | core/game.py:91-105 | while playing the string is queued as Pac-Man's next direction; while paused only "PAUSE" resumes; in every other state nothing changes; so input never enters PAUSED |
| Game.GameCore.ExpirePowerPellet | core/game.py:114-123 | the state changes as Expire states |
| Game.GameCore.CalmGhosts | core/game.py:120-123 | every ghost is calmed |
| Game.GameCore.StepPacman | core/game.py:130-153 | the state changes as PacPhase states |
| Game.GameCore.MoveGhosts | core/game.py:155-157 | each ghost in order takes one move step seeing Pac-Man's new cell and facing |
| Game.GameCore.ResolveCollisions | core/game.py:159-189 | ghosts before the first deadly one are sent home when met, for 200 points each; the first deadly ghost costs a life, and then a respawn in the box or game over |
| Game.GameCore.Collide | core/game.py:160-189 | one pass of the collision loop keeps the loop's invariant or ends in the loop's outcome |
| Game.GameCore.EatGhost | core/game.py:162-176 | the ghost is calmed and sent to a spawn cell with no last direction, and Pac-Man gains 200 points |
| Game.GameCore.LoseLifeAndRespawn | core/game.py:177-189 | one life fewer; with lives left Pac-Man respawns in the box, without them the game is over |
| Game.GameCore.MoveEntities | core/game.py:114-157 | the countdown, Pac-Man's step and the ghosts' moves happen in order, and the level's ground rules are kept |
| Game.GameCore.CheckCollisions | core/game.py:159-189 | the collision phase as a step of the frame, leaving the board and the cast in place |
| Game.GameCore.PlayFrame | core/game.py:114-189 | one frame runs its phases in order and keeps the level ready |
| Game.GameCore.Update | core/game.py:107-194 | nothing changes unless playing; otherwise one frame runs, the game ends playing or over, and the level rises by one exactly when both item sets end up empty; the new level then has a fresh Pac-Man, the ghosts in formation, no pellets and food on every PATH cell but the spawns |
| Game.GameCore.IsPlaying | core/game.py:221-222 | true only in PLAYING, never in MENU, GAME_OVER or PAUSED |
| Game.GameCore.IsGameOver | core/game.py:218-219 | true only in GAME_OVER, and then the game is not playing |
| Game.GameCore.IsPaused | core/game.py:224-225 | true only in PAUSED, and then the game is neither playing nor over; HandleInput and Update never lead into PAUSED |
| Scores.ValidEntriesKeepsExactlyTheValid | data/score_manager.py:49-64 | the loaded entries are exactly the valid JSON items, converted, and there are no more of them than items |
| Scores.ValidEntriesKeepsOrder | data/score_manager.py:49 | filtering keeps the order of the file, piece by piece |
| Scores.LoadScores | data/score_manager.py:35-52 | a missing or unreadable file, or one that is not a JSON array, loads as an empty ranking |
| Scores.LoadKeepsOnlyValidEntries | data/score_manager.py:35-64 | a loaded entry is exactly a valid item of an array in the file |
| Scores.InsertByScore | data/score_manager.py:81 | one insertion step adds exactly the new entry and loses nothing |
| Scores.SortByScore | data/score_manager.py:81 | the sort is a permutation of its input |
| Scores.SortByScoreIsRanked | data/score_manager.py:81 | the sort orders scores from highest to lowest |
| Scores.SortByScoreIsStable | data/score_manager.py:81 | entries with equal scores keep their original relative order, as Python's stable sort does |
| Scores.SortOfRankedIsIdentity | data/score_manager.py:81 | sorting a ranking changes nothing |
| Scores.InsertKeepsRanked | data/score_manager.py:81 | inserting into a ranking keeps it ranked |
| Scores.InsertIsStable | data/score_manager.py:81 | an inserted entry goes behind every entry with the same score |
| Scores.Prefix | data/score_manager.py:82 | Python slicing s[:n] returns a prefix of s, of length min(n, len) for n >= 0 and len + n (at least 0) for negative n |
| Scores.AddedIsRanking | data/score_manager.py:78-82 | after adding, the ranking has at most 10 entries in score order, drawn from the old ranking plus the new entry (all of them while fewer than 10 were held), with the new entry behind every equal score |
| Scores.PrefixKeepsRanked | data/score_manager.py:82 | truncating a ranking leaves it ranked |
| Scores.QualifyingScoreEnters | data/score_manager.py:107-119 | on a ranking of at most 10 entries, a score that is_high_score accepts does enter the ranking |
| Scores.NonQualifyingScoreChangesNothing | data/score_manager.py:107-119 | a score that is_high_score rejects leaves the ranking's first ten entries as they were |
| Scores.LongFileBreaksQualifying | data/score_manager.py:107-119 | a file of eleven entries makes is_high_score accept a score that then does not enter |
| Scores.InsertIntoRankedAt | data/score_manager.py:81 | an entry scoring below all but the last goes just in front of the last |
| Scores.ScoreManager.constructor | data/score_manager.py:20-29 | the ranking starts as the file's valid entries |
| Scores.ScoreManager.AddScore | data/score_manager.py:66-84 | the ranking becomes the sorted, truncated list with the new entry, stays ranked with at most 10 entries, and the answer is whether the new entry is in it |
| Scores.ScoreManager.TopScores | data/score_manager.py:86-96 | a prefix of the ranking with min(n, size) entries for n >= 0 |
| Scores.ScoreManager.IsHighScore | data/score_manager.py:107-119 | exactly Qualifies: true while fewer than ten entries are held, otherwise exactly when the score is above the last one; every higher score then qualifies too; QualifyingScoreEnters and NonQualifyingScoreChangesNothing state what that decides |

The cell queries `is_valid_position`, `is_wall`, `is_ghost_door`,
`is_ghost_house`, `can_pacman_move_to` and `can_ghost_move_to`
(world/board.py:93-135) are the predicates Board.IsValidPosition,
Board.IsWall, Board.IsGhostDoor, Board.IsGhostHouse, Board.CanPacmanMoveTo
and Board.CanGhostMoveTo; the rows for Board.ValidPositionIsTheBox,
Board.OutsideIsBlocked, Board.PacmanCellsAreGhostCells and
Board.CellKindsPartitionTheBoard state what they decide.

## Left out

- The pixel-smoothing methods `interpolate_position` and the `float_pos`
  fields of Pac-Man and the ghosts, together with all `speed` values: they
  are floating-point animation and never feed back into grid positions.
- `get_progress_percentage` (core/game.py:205-216): floating-point
  arithmetic for the display.
- Sound: every `sound_manager` call is left out; the `sound_manager`
  parameter of `move` and of the engine is dropped.
- Rendering, the HUD, `main.py` and the event loop. `BoardGenerator.__repr__`
  is left out too: it only prints the board.
- The `print` calls in `_setup_level` and `place_all_food`: output only.
- File I/O of the score manager: `_ensure_data_dir`, `_save_scores` and
  `json.load`. The file's content is an input, `Option<Json>`, where
  `None` stands for a missing file, a JSON decode error or an I/O error.
- Scores.ScoreManager.constructor: a scores file that is not valid UTF-8 raises
  `UnicodeDecodeError`, which `_load_scores` does not catch
  (data/score_manager.py:51), so the Python constructor crashes. The model
  has no such error path: every input loads.
- Randomness: `random.choice` becomes a nondeterministic choice from the
  candidate list. No probability is modelled.
- Mutation through aliases. `move` discards eaten items from the caller's
  sets. The model returns the new sets, and the caller stores them.
  `generate_maze` returns a fresh copy of the template
  (world/board.py:87-89), so the engine's maze and the generator's maze
  are separate lists with equal content. Nothing in the core mutates
  either, and the model stores the same value in both fields.
- `_setup_level` as written calls `get_walkable_positions(self.maze)`
  (core/game.py:61), but that method takes no argument. It also calls
  `place_food(...)` (core/game.py:84), which the board does not define.
  The model follows the evident intent: the board's own
  `get_walkable_positions`, and `place_all_food` with the same exclusions.
  `num_food` (core/game.py:68) affects nothing once `place_all_food` is
  used, so it is left out.
- Ghosts.Alignment: the flee loops normalise the away vector by dividing
  both parts by the same positive length (entities/ghosts.py:250-252).
  The model compares integer dot products instead. Dividing every score
  by the same positive number preserves every comparison.
- Ghosts.PlanFor: the tests sqrt(d) < 5 and sqrt(d) < 8 are modelled as
  d < 25 and d < 64. For an integer d these are the same tests.
- Pinky's test `not pacman_direction` holds for `None` and for the empty
  string. The model treats both as no direction.
- Scores.LoadScores: JSON objects with keys beyond score, level and name
  are loaded as their three fields. Python keeps the extra keys, and they
  take part in the dict comparison `new_entry in self.scores`. With such
  an entry in the file, AddScore can answer true where Python answers
  false.
- Scores: a JSON `true`/`false` counts as the integer 1/0, as
  `isinstance(True, int)` holds in Python. Floats are not integers.
- Scores.QualifyingScoreEnters: it requires at most 10 entries. A
  hand-edited file with more entries can make `is_high_score` accept a
  score that does not enter the ranking, as LongFileBreaksQualifying shows.
- The default name `"Player"` of `add_score` and the default `n = 10` of
  `get_top_scores`: Dafny has no default arguments, so callers pass them.
- Game.GameCore.Update gives the post-frame world only through an
  existential when a new level starts, because `_setup_level` then
  replaces Pac-Man and the ghosts.
- Collide, CalmGhosts, EatGhost, LoseLifeAndRespawn, StepPacman,
  MoveGhosts, MoveEntities, CheckCollisions and PlayFrame are parts of
  `update`. TowardsConsider, FleeConsider and ChooseNextPosition are parts
  of the ghosts' move bodies. They are written as separate methods to
  keep each proof small.

Code facts the model reproduces as written:

- `_setup_level` creates a new Pac-Man on every level, so score and lives
  start again at 0 and 3 when a level is completed.
- The power-pellet set is filled only in the constructor, never by
  `_setup_level`. Once eaten, pellets are not restored on later levels or
  in a new game.
- The guard `len(ghost_spawn_points) >= 4` (core/game.py:77) always holds
  for the fixed spawn list.
- Nothing in the core sets `power_pellet_active` or makes a ghost
  vulnerable. Eating a pellet only scores 50, so the game stays quiet
  (Game.FrameSummary) and no ghost is ever eaten in play.
- PAUSED is never entered by the core: the constructor starts in MENU,
  and neither Game.GameCore.HandleInput nor Game.GameCore.Update leads
  into PAUSED from any other state (both contracts state it).
  `handle_input` in PLAYING stores any string, "PAUSE" included, as the
  next direction.
- A turn is taken only once Pac-Man is blocked. Whenever the cell ahead
  is open, the update calls `move` with his facing (core/game.py:141-142),
  and `move` first stores that facing as the queued direction
  (entities/player.py:54), so a key pressed while he can keep going is
  discarded: he never turns at a junction and never reverses
  (Game.OpenFacingDiscardsTurn).
- A queued string that is not one of the four names, or the missing
  direction left by a respawn, freezes Pac-Man. When the facing is
  blocked, the update adopts the queued direction if its cell is open,
  and for such a direction that cell is Pac-Man's own. From then on every
  update finds his own cell open ahead, calls `move` with that facing, and
  `move` overwrites the queued direction (entities/player.py:54), so no
  later key press is obeyed until he respawns or a level starts
  (Game.NamelessFacingFreezes). A respawn on (6, 12), whose east cell is
  a wall, reaches this state on its first update when nothing is queued
  (Game.RespawnNextToWallFreezes).
- `handle_tunnel_teleport` is never called by the engine, so the model's
  moves never wrap around.
- The three ghosts spawned inside the ghost house never move, because no
  cell around them holds 0. Clyde starts on a WALL cell, east of the
  house, from which the only move is east.
- Every ghost move sets `last_direction` after updating the position, so
  it is always (0, 0) and the U-turn test never excludes a cell.
- The level-completion check runs after the collision loop even when the
  game has just ended.
