# HorroText quest engines, modelled in Dafny

HorroText is a Russian-language horror text quest written in Python. The repository holds
several rewrites of the same branching-story engine, plus two small side games. This project
models the state logic under their Tk widgets and proves what each one promises.

- **ReplayQuest** (`Project/scr/quest.py`): a two-way story where every node offers "A" and
  "B". The game keeps the current node and a list of (node id, choice) pairs. Restoring and
  rolling back replay a list of choices from the start node.
- **SavesEngine** (`Project/scr/game_start_saves.py`): a saveable `GameState` record with a
  dictionary round trip, and story nodes whose choices depend on a mode. The mode is picked
  by first-match rules over boolean flags, and a fixed table turns destination scenes into
  flags. A jump cuts the history before the first visit to a node.
- **FinalQuest** (`Project/final_code/quest_final.py`): the final graphical engine.
  - Four flags, keyed by scene id, unlock extra variants.
  - Variants have no "default" fallback.
  - Every `next` choice goes into a ledger; action choices record nothing.
  - Rollback offers a de-duplicated menu of the scenes the player left, and leaves the flags alone.
- **QuestStatistics** (`final_code/quest_statistics.py`): the SQLite ledger, as two in-memory
  tables of rows with increasing ids. Rolling back to a scene deletes the player's rows
  after their last row for that scene.
- **SimpleQuest** (`Project/scr/main_1.py`): the simplified engine.
  - Only the "default" variant is read.
  - A choice is recorded even when its move fails.
  - A name must not be blank, and is stored stripped.
  - A scan of the history finds the decision taken at the journalist.
- **Adventure** (`Project/scr/code1_linaV38.py`): four rooms, items, characters and a
  turn-based fight with the monster.
- **Snake** (`Project/scr/code2_linaV38.py`): the snake state machine. It covers turning,
  the step, growth, the speed clamp and the collision test.

The story document is shared by three engines and lives in **StoryData**. It has scenes with
a text, an optional type, and choices that are either a list or a `variants` object keyed by
mode. StoryData also states the mode rules once, as an ordered rule table evaluated
first-match. The two engines with modes hard-code those rules as if/elif chains, and each is
proved equal to the table. **Fallbacks** compares how the three engines read the same
`choices` member.

Modelling conventions:
- Clocks (`datetime.now()`) are string parameters.
- The player's typed or dialog answers are parameters: `Option` when the dialog can be
  cancelled.
- Random numbers are parameters: the fight's escape roll is a function from round number to
  outcome, and the snake's next food cell is a value.
- A scene without `choices` is an empty list, which every engine treats as an absent key.

## Model

| member | source | states |
|---|---|---|
| `StoryData.FirstMatch` | Project/scr/game_start_saves.py:93-110 | the mode is the first firing rule's mode, and "default" exactly when no rule fires |
| `StoryData.CorridorRules` | Project/scr/game_start_saves.py:97-103 | for `corridor_cross`: both journalist flags give add_var1, else the fire-alarm flag gives add_var2, else default |
| `StoryData.NewFloorRules` | Project/scr/game_start_saves.py:104-108 | for `new_floor_cross`: the wait flag gives add_var1, else default |
| `ReplayQuest.NewChoiceNode` | Project/scr/quest.py:10-17 | a node's `next` table has exactly the keys "A" and "B", holding the given targets |
| `ReplayQuest.LoadStory` | Project/scr/quest.py:22-34 | one node per JSON key, stored under its own id, every one two-way |
| `ReplayQuest.Step` | Project/scr/quest.py:51-56 | the move ends the story exactly when the choice has no target, and otherwise reaches the target's node |
| `ReplayQuest.After` | Project/scr/quest.py:49-56 | replaying choices one by one never leaves the story |
| `ReplayQuest.PyPrefix` | Project/scr/quest.py:71 | `s[:n]` is a prefix of `s`, of length `min(n, len(s))` for `n >= 0` |
| `ReplayQuest.ReplayKeepsPrefix` | Project/scr/quest.py:61-68 | restore keeps a prefix of the given history, and stops early only at the end or at an entry from another node |
| `ReplayQuest.ReplayFollows` | Project/scr/quest.py:61-68 | the kept prefix is a history `make_choice` could have written, and the position is where it leads |
| `ReplayQuest.ReplayOwnHistory` | Project/scr/quest.py:49-68 | replaying a game's own history reproduces that history and its position |
| `ReplayQuest.FollowsAppend` | Project/scr/quest.py:49-56 | one more choice extends a self-written history and moves by `Step` |
| `ReplayQuest.FollowsPrefix` | Project/scr/quest.py:70-72 | every prefix of a self-written history is self-written |
| `ReplayQuest.RollbackTruncates` | Project/scr/quest.py:70-72 | on a self-written history, rollback keeps exactly `history[:index+1]` and its position |
| `ReplayQuest.RollbackIdempotent` | Project/scr/quest.py:70-72 | rolling back twice to `index >= 0` gives the state once does, on any history |
| `ReplayQuest.GameState.constructor` | Project/scr/quest.py:40-43 | a new game is at the start node with an empty history |
| `ReplayQuest.GameState.Reset` | Project/scr/quest.py:45-47 | current is the start node and the history is empty |
| `ReplayQuest.GameState.MakeChoice` | Project/scr/quest.py:49-59 | appends exactly `(current.id, choice)`, moves by `Step`, finished iff no target |
| `ReplayQuest.GameState.RestoreFromHistory` | Project/scr/quest.py:61-68 | the loop with its two breaks computes `Replay` from the start; the history is a prefix of the input |
| `ReplayQuest.GameState.RollbackTo` | Project/scr/quest.py:70-72 | the history becomes `old[:index+1]` and current is where it leads |
| `SavesEngine.ToDict` | Project/scr/game_start_saves.py:21-40 | `from_dict(to_dict(s)) == s` for every clock value |
| `SavesEngine.EmptyDictIsFreshState` | Project/scr/game_start_saves.py:31-40 | missing keys load as "start", "", {}, [] and the current time |
| `SavesEngine.GetAvailableChoices` | Project/scr/game_start_saves.py:52-59 | every offered choice is one the node lists; a mode with its own variant is offered that variant |
| `SavesEngine.SavesFallsBackToDefault` | Project/scr/game_start_saves.py:56-58 | a mode without its own variant is offered exactly what the "default" mode is |
| `SavesEngine.SavesListIgnoresMode` | Project/scr/game_start_saves.py:59 | a plain list is offered unchanged, the same for every mode |
| `SavesEngine.ModeForIsFirstMatch` | Project/scr/game_start_saves.py:93-110 | the if/elif chain equals first-match evaluation of the rule table |
| `SavesEngine.CorridorModes` | Project/scr/game_start_saves.py:97-103 | the flag sets unlocking add_var1 and add_var2 at `corridor_cross`, and no flags giving default |
| `SavesEngine.WithFlagsFor` | Project/scr/game_start_saves.py:145-156 | only the table's flag for the destination changes, to true; no flag is cleared |
| `SavesEngine.ApplyChoice` | Project/scr/game_start_saves.py:123-141 | one entry with the pre-move node and the text is appended; restart gives a fresh state; a `next` applies `WithFlagsFor` to the (possibly fresh) flags and becomes the node; with neither the flags stay; flags only become true |
| `SavesEngine.TruncateBeforeFirst` | Project/scr/game_start_saves.py:165-171 | the kept history is a prefix with no entry for the node, ending at its first entry or at the end |
| `SavesEngine.TruncateBeforeFirstUnique` | Project/scr/game_start_saves.py:165-171 | those three facts determine the truncation |
| `SavesEngine.GameEngine.constructor` | Project/scr/game_start_saves.py:64-69 | a fresh state and the default mode |
| `SavesEngine.GameEngine.UpdateMode` | Project/scr/game_start_saves.py:93-110 | the mode becomes the rule table's mode for the current node and flags |
| `SavesEngine.GameEngine.MakeChoice` | Project/scr/game_start_saves.py:112-143 | a missing node returns false and changes nothing; otherwise the mode is refreshed, an index out of range returns false with the state unchanged, and a valid one applies `ApplyChoice` |
| `SavesEngine.GameEngine.UpdateFlags` | Project/scr/game_start_saves.py:145-156 | only the flags change, as `WithFlagsFor` says |
| `SavesEngine.GameEngine.HandleAction` | Project/scr/game_start_saves.py:158-161 | "restart" restarts, anything else changes nothing |
| `SavesEngine.GameEngine.JumpToNode` | Project/scr/game_start_saves.py:163-175 | an unknown id returns false and changes nothing; a known one cuts before the first visit and moves there |
| `SavesEngine.GameEngine.RestartGame` | Project/scr/game_start_saves.py:177-180 | a fresh state and the default mode |
| `SavesEngine.GameEngine.IsGameOver` | Project/scr/game_start_saves.py:182-185 | true exactly when the current node exists and its type is "game_over" or "final" |
| `SavesEngine.GameEngine.AskPlayerName` | Project/scr/game_start_saves.py:187-189 | an empty answer becomes "Player"; nothing else changes |
| `SavesEngine.RestartDiscardsEntry` | Project/scr/game_start_saves.py:126-134 | a restart choice discards the entry it just wrote: the result is a fresh state |
| `QuestStatistics.RowsOf` | final_code/quest_statistics.py:72-78 | exactly the player's rows, in increasing id order |
| `QuestStatistics.LastSceneRowId` | final_code/quest_statistics.py:85-91 | NULL exactly when the player has no row for the scene, else the largest such id |
| `QuestStatistics.DeleteAfter` | final_code/quest_statistics.py:82-85 | exactly the player's rows above the mark go, and the order is kept |
| `QuestStatistics.RollbackDeletesExactly` | final_code/quest_statistics.py:81-92 | nothing goes when the subquery is NULL; otherwise only the player's rows after their last row for the scene; other players' rows and earlier visits stay |
| `QuestStatistics.DeleteAfterNothing` | final_code/quest_statistics.py:82-85 | with no player row above the mark, the table is unchanged |
| `QuestStatistics.RollbackIdempotent` | final_code/quest_statistics.py:81-92 | a second rollback to the same scene deletes nothing |
| `QuestStatistics.RollbackSinglePlayerKeepsPrefix` | final_code/quest_statistics.py:81-92 | for one player, the rows up to and including the last visit are kept |
| `QuestStatistics.DeleteAfterKeepsPrefix` | final_code/quest_statistics.py:82-85 | for one player and increasing ids, deleting after position k keeps the first k+1 rows |
| `QuestStatistics.DeleteAllAfter` | final_code/quest_statistics.py:82-85 | rows all above the mark all go |
| `QuestStatistics.RenamePlayer` | final_code/quest_statistics.py:48-53 | only rows with that id get the new name; ids, order and creation times are kept |
| `QuestStatistics.Ledger.constructor` | final_code/quest_statistics.py:15-36 | empty tables |
| `QuestStatistics.Ledger.CreatePlayer` | final_code/quest_statistics.py:39-45 | one row at the end, with an id above every existing id |
| `QuestStatistics.Ledger.UpdatePlayerName` | final_code/quest_statistics.py:48-53 | the players table as `RenamePlayer` gives it |
| `QuestStatistics.Ledger.SaveChoice` | final_code/quest_statistics.py:56-69 | one row at the end, with the given fields and an id above every existing id |
| `QuestStatistics.Ledger.GetChoicesHistory` | final_code/quest_statistics.py:72-78 | exactly the player's rows, in ascending id order |
| `QuestStatistics.Ledger.RollbackToScene` | final_code/quest_statistics.py:81-93 | the table as `RollbackRows` gives it |
| `QuestStatistics.Ledger.ExportHistoryToCsv` | final_code/quest_statistics.py:96-118 | None exactly when the player has no rows; a given file name is returned |
| `FinalQuest.GetChoices` | Project/final_code/quest_final.py:64-70 | every offered choice is one the scene lists; a mode with its own variant is offered that variant |
| `FinalQuest.FinalNoFallback` | Project/final_code/quest_final.py:66-67 | a mode without its own variant is offered nothing, even when a "default" variant exists |
| `FinalQuest.FinalListIgnoresMode` | Project/final_code/quest_final.py:68-69 | a plain list is offered unchanged, the same for every mode |
| `FinalQuest.Buttons` | Project/final_code/quest_final.py:50-61 | the choice buttons, followed by one restart button exactly on a game-over scene |
| `FinalQuest.MarkVisited` | Project/final_code/quest_final.py:80-81 | the key set is kept and only the destination's flag can become true |
| `FinalQuest.FinalModeIsFirstMatch` | Project/final_code/quest_final.py:83-91 | the hard-coded mode conditions equal the rule table |
| `FinalQuest.FinalModeUnlocks` | Project/final_code/quest_final.py:80-91 | `new_floor_cross` opens add_var1 exactly after `wait_stay_cross`; scenes without rules open default |
| `FinalQuest.Dedup` | Project/final_code/quest_final.py:143 | the same values, each once, in the order of first occurrence |
| `FinalQuest.SceneIds` | Project/final_code/quest_final.py:142 | the scene id of each history row, in order |
| `FinalQuest.MenuScenesHaveRows` | Project/final_code/quest_final.py:138-161 | an empty history offers nothing; every offered scene has a row to roll back to |
| `FinalQuest.MenuPick` | Project/final_code/quest_final.py:146-160 | a scene is picked exactly for an answer in 1..len, and it is entry `answer-1` |
| `FinalQuest.RollbackPick` | Project/final_code/quest_final.py:138-160 | a scene is picked exactly when the history is non-empty and the answer is in 1..len of the menu; a picked scene is on the menu and has a row to roll back to |
| `FinalQuest.NameOrDefault` | Project/final_code/quest_final.py:129-133 | an empty or cancelled answer becomes "Player"; the name is never empty |
| `FinalQuest.Quest.constructor` | Project/final_code/quest_final.py:16-28 | scene "start", empty name, four false flags; one player row "player" is created |
| `FinalQuest.Quest.ShowScene` | Project/final_code/quest_final.py:38-61 | the scene id is set first; a known scene shows its text and buttons, an unknown one leaves the screen |
| `FinalQuest.Quest.ManageNext` | Project/final_code/quest_final.py:74-99 | name asked only on the way into the introduction with no name; flag marked; choice recorded from the old scene; destination shown in the table's mode |
| `FinalQuest.Quest.ManageChoice` | Project/final_code/quest_final.py:73-102 | `next` wins over `action`; a choice with neither changes nothing |
| `FinalQuest.Quest.ManageAction` | Project/final_code/quest_final.py:105-111 | restart, rollback, or nothing for export and unknown actions |
| `FinalQuest.Quest.RestartGame` | Project/final_code/quest_final.py:114-117 | empty name, every flag false under the same keys, scene "start"; the ledger is untouched |
| `FinalQuest.Quest.AskName` | Project/final_code/quest_final.py:129-134 | the answer or "Player" becomes the name, on screen and in the ledger |
| `FinalQuest.Quest.Rollback` | Project/final_code/quest_final.py:137-162 | no valid pick changes nothing; a pick cuts the ledger after the last visit and shows the scene's text and its default-mode buttons (an unknown scene leaves the screen); flags untouched |
| `FinalQuest.Quest.ExportHistory` | Project/final_code/quest_final.py:165-170 | no file exactly when the player's history is empty |
| `SimpleQuest.StripIsTrimmedMiddle` | Project/scr/main_1.py:23-24 | `strip()` cuts only whitespace from both ends and leaves none there |
| `SimpleQuest.StripEmptyIffBlank` | Project/scr/main_1.py:23 | the stripped name is empty exactly when the name is blank |
| `SimpleQuest.StripIdempotent` | Project/scr/main_1.py:405-408 | stripping a stripped name changes nothing |
| `SimpleQuest.Contains` | Project/scr/main_1.py:71-74 | `sub in s` holds exactly when `sub` occurs at some position of `s` |
| `SimpleQuest.GetJournalistChoice` | Project/scr/main_1.py:67-75 | the verdict of the first journalist entry naming a decision ("talk" before "refuse"); None exactly when there is none |
| `SimpleQuest.JournalistChoiceStable` | Project/scr/main_1.py:67-75 | later entries never change a decision once made |
| `SimpleQuest.GetAvailableChoices` | Project/scr/main_1.py:51-65 | every offered choice is one the scene lists; a variant object offers its "default" list or nothing, whatever other variants it has |
| `SimpleQuest.QuestGame.constructor` | Project/scr/main_1.py:11-15 | scene "start", no name, empty history |
| `SimpleQuest.QuestGame.GetCurrentScene` | Project/scr/main_1.py:17-19 | the current scene, or an empty one without choices |
| `SimpleQuest.QuestGame.SetPlayerName` | Project/scr/main_1.py:21-24 | a blank name is ignored; otherwise the stripped, non-empty name is stored |
| `SimpleQuest.QuestGame.MakeChoice` | Project/scr/main_1.py:26-49 | a bad index changes nothing; a valid one appends (scene, text) even when the move fails; the move and True happen exactly when the target is in the story |
| `SimpleQuest.QuestGame.ResetGame` | Project/scr/main_1.py:77-81 | scene "start", empty history, empty name |
| `SimpleQuest.QuestGame.SubmitName` | Project/scr/main_1.py:405-418 | a blank name changes nothing; otherwise the stripped name is stored and the scene becomes "introduction" |
| `Adventure.WorldIsClosed` | Project/scr/code1_linaV38.py:56-85 | every exit of the map leads to a room of the map |
| `Adventure.Damage` | Project/scr/code1_linaV38.py:125 | `max(1, attack - defense)`: at least 1, and at least the difference |
| `Adventure.RemoveFirst` | Project/scr/code1_linaV38.py:196 | `list.remove` drops the first occurrence only; the multiset loses exactly that item |
| `Adventure.Fight` | Project/scr/code1_linaV38.py:118-152 | a fight never raises the player's health, and a won fight leaves the player alive |
| `Adventure.MonsterRound` | Project/scr/code1_linaV38.py:104-107 | against the monster an attack deals 7, its hit 3, or 1 after defending |
| `Adventure.AttackingOnly` | Project/scr/code1_linaV38.py:118-146 | always attacking wins exactly when health exceeds 3 per full attack short of the last |
| `Adventure.FullHealthBeatsMonster` | Project/scr/code1_linaV38.py:44-46 | a player at full health who only attacks beats the monster |
| `Adventure.World.constructor` | Project/scr/code1_linaV38.py:44-85 | the starting room, an empty inventory, the map and health 100 |
| `Adventure.World.Move` | Project/scr/code1_linaV38.py:179-187 | through an exit of the room, else no move; the location stays a room |
| `Adventure.World.TakeItem` | Project/scr/code1_linaV38.py:193-200 | a present item moves from the room to the end of the inventory, conserving the multiset; an absent one changes nothing |
| `Adventure.World.Battle` | Project/scr/code1_linaV38.py:102-152 | the loop computes `Fight`; the defence bonus is back to 0 whenever the enemy still stands |
| `Adventure.World.TalkToNpc` | Project/scr/code1_linaV38.py:215-236 | nobody present changes nothing; a beaten monster leaves the room; others say their lines |
| `Snake.Turn` | Project/scr/code2_linaV38.py:59-65 | a direction key is taken unless it reverses the current one; other keys are ignored; direction stays one of four |
| `Snake.TurnNeverReverses` | Project/scr/code2_linaV38.py:59-65 | one key press never reverses the direction |
| `Snake.TwoTurnsReverse` | Project/scr/code2_linaV38.py:59-65 | from every direction, some two presses between ticks reverse it |
| `Snake.NextHead` | Project/scr/code2_linaV38.py:68-76 | the new head is one segment away on the direction's axis, forward for Down and Right and backward for Up and Left |
| `Snake.SlowDownFollowsScore` | Project/scr/code2_linaV38.py:86 | `max(50, speed - 5)` after each meal gives `max(50, 150 - 5 * score)` |
| `Snake.Advance` | Project/scr/code2_linaV38.py:67-88 | new head in front; on the food the tail is kept and the score, food and speed change; otherwise the tail goes |
| `Snake.AdvanceKeepsShape` | Project/scr/code2_linaV38.py:78-88 | a step keeps the body connected and on the grid |
| `Snake.EatingStaysInside` | Project/scr/code2_linaV38.py:30-39 | food lies inside the field, so reaching it is never a wall collision |
| `Snake.ReversalIsNotACollision` | Project/scr/code2_linaV38.py:99-108 | a step back onto the neck puts the head on the segment at index 2, which the test skips; a three-segment snake inside the field reports no collision |
| `Snake.InitialReversalIsNotACollision` | Project/scr/code2_linaV38.py:59-108 | from the initial body, Up then Left lands the head on the neck with no collision |
| `Snake.Game.constructor` | Project/scr/code2_linaV38.py:16-19 | direction Right, score 0, the three-segment body, speed 150 |
| `Snake.Game.OnKeyPress` | Project/scr/code2_linaV38.py:59-65 | the direction becomes `Turn(old, key)` |
| `Snake.Game.CheckCollisions` | Project/scr/code2_linaV38.py:99-108 | out of the field, or the head on a segment at index 3 or later |
| `Snake.Game.MovePlayer` | Project/scr/code2_linaV38.py:67-92 | the state becomes `Advance(old)`; length is score + 3 and speed follows the score; the result is the collision test |
| `Snake.Game.RestartGame` | Project/scr/code2_linaV38.py:121-126 | direction Right, score 0, the initial body, new food, speed 150 |
| `Fallbacks.DefaultModeAgrees` | Project/scr/game_start_saves.py:52-59 | in the default mode all three engines offer the same choices |
| `Fallbacks.FinalDiffersFromSaves` | Project/final_code/quest_final.py:64-70 | the final engine differs from the saves engine exactly when the mode has no variant and "default" is non-empty |
| `Fallbacks.SimpleIgnoresMode` | Project/scr/main_1.py:58-62 | with a variant for the mode, the simplified engine agrees with the final one exactly when that variant equals "default" |

## Left out

- Widgets, canvas drawing, message boxes and dialogs are not modelled. Dialog answers are parameters; the Tk/customtkinter layout, button styling and `lighten_color` (float colour scaling) are left out.
- File and database I/O are not modelled. This covers JSON story loading, `SaveManager` in two engines, `save_game`/`load_game` of the adventure, the SQLite connection and commits, and CSV writing. The ledger is two in-memory tables.
- Randomness and the clock are parameters: the escape roll, the food placement, and `datetime.now()`. The `time.sleep` pauses of the dialogue are dropped.
- `ReplayQuest.Step`: the story is required to have no dangling target, because the source's `nodes[next_id]` raises KeyError on one. The model does not track that exception.
- `ReplayQuest.GameState.MakeChoice` requires an unfinished game, because `current.id` fails on `None`. The UI disables the buttons in that case.
- `FinalQuest.Quest.ShowScene` and the engines' scene lookups: a KeyError from an unknown scene is modelled as the state reached before it. Python's later statements do not run.
- `FinalQuest.Buttons`, `FinalQuest.Quest.ShowScene` and `FinalQuest.Quest.ManageNext` show a choice without a "text" key as a button. The source builds each button with `choice["text"]`, which raises KeyError there; the model does not track that exception.
- `FinalQuest.Quest.ManageChoice` states the full effect of each branch only through `ManageNext` and `ManageAction`. Its own contract names the scene, flags and ledger length of a `next` choice.
- `QuestStatistics.Ledger.ExportHistoryToCsv` does not state the generated default file name in its contract. The name is `../data/history_player_<id>_<stamp>.csv`, with the timestamp as a parameter.
- `Adventure.World.Battle` requires a known enemy, because `enemies[enemy_name]` raises KeyError otherwise. The source only ever fights the monster.
- `Adventure.Fight` does not model the `exp` value of enemies. The source never uses it.
- `Snake.Game.constructor` and `Snake.Game.RestartGame` stop before the `move_player` call both make at their end. That call is a separate `MovePlayer`.
- The game-over overlay and the timer rescheduling of the snake are left out. `MovePlayer` returns whether the game is over, and then no further tick comes.
- `SimpleQuest.IsSpace` covers the characters Python's `str.isspace` accepts, listed explicitly.
- `return_to_start.py` is not part of this model. It is a GUI fragment whose only rule, the journalist scan, is the one of `main_1.py`.
- `Project/scr/game_start.py` is not part of this model. It is a module-level Tk script whose rules are wired into widget calls.
