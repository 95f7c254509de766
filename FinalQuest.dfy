/** The final graphical quest (Project/final_code/quest_final.py): the story document, four
    flags that unlock extra choice sets, and a ledger of every choice made, used for rolling
    back to an earlier scene and for exporting the history. The widgets become two fields, the
    text on screen and the buttons under it; the dialogs become parameters holding the
    player's answer. */
module FinalQuest {
  import opened Wrappers
  import opened StoryData
  import opened QuestStatistics

  const RESTART := "restart"
  const ROLLBACK := "rollback"
  const EXPORT_HISTORY := "export_history"
  const GAME_OVER := "game_over"
  const PLACEHOLDER_NAME := "player"
  const DEFAULT_NAME := "Player"

  /** The scenes whose visit is remembered; all four start unvisited. */
  const FLAG_KEYS: set<string> := {REFUSED_JOURNALIST, CLOSE_SEAT_V1, FIRE_ALARM_CROSS2, WAIT_STAY_CROSS}

  const INITIAL_FLAGS: map<string, bool> :=
    map[REFUSED_JOURNALIST := false, CLOSE_SEAT_V1 := false,
        FIRE_ALARM_CROSS2 := false, WAIT_STAY_CROSS := false]

  /** The extra button a game-over scene gets; pressing it restarts the game, as a choice with
      action "restart" does. */
  const RESTART_BUTTON := Choice(Some("Начать заново"), None, Some(RESTART))

  /** `get_choices(scene, mode)`: the variant for the mode, with no fallback to "default"; a plain
      list whatever the mode; nothing for any other shape. */
  function GetChoices(scene: Scene, mode: string): (r: seq<Choice>)
    ensures forall c :: c in r ==> Listed(scene.choices, c)
    ensures scene.choices.ChoiceDict? && scene.choices.variants.Some? && mode in scene.choices.variants.value ==>
      r == scene.choices.variants.value[mode]
  {
    match scene.choices
    case ChoiceDict(Some(variants)) => if mode in variants then variants[mode] else []
    case ChoiceList(items) => items
    case _ => []
  }

  /** A mode without a variant of its own is offered nothing, even when a "default" variant
      exists. */
  lemma FinalNoFallback(scene: Scene, mode: string)
    requires scene.choices.ChoiceDict? && scene.choices.variants.Some? && mode !in scene.choices.variants.value
    ensures GetChoices(scene, mode) == []
  {
  }

  /** A plain list is offered the same, whatever the mode. */
  lemma FinalListIgnoresMode(scene: Scene, mode: string, other: string)
    requires scene.choices.ChoiceList?
    ensures GetChoices(scene, mode) == GetChoices(scene, other) == scene.choices.items
  {
  }

  /** What `show_scene` puts under the text: the choice buttons, then the restart button on a
      game-over scene. */
  function Buttons(scene: Scene, mode: string): (r: seq<Choice>)
    ensures GetChoices(scene, mode) <= r
    ensures scene.kind == Some(GAME_OVER) <==> |r| == |GetChoices(scene, mode)| + 1
    ensures scene.kind == Some(GAME_OVER) ==> r[|r| - 1] == RESTART_BUTTON
  {
    GetChoices(scene, mode) + if scene.kind == Some(GAME_OVER) then [RESTART_BUTTON] else []
  }

  /** `if next_scene in self.state: self.state[next_scene] = True`. */
  function MarkVisited(flags: map<string, bool>, next: string): (r: map<string, bool>)
    ensures r.Keys == flags.Keys
    ensures forall k :: k in flags ==> r[k] == (flags[k] || k == next)
  {
    if next in flags then flags[next := true] else flags
  }

  /** The mode `manage_choice` opens the destination with, on the flags already updated. */
  function FinalMode(next: string, flags: map<string, bool>): string
    requires FLAG_KEYS <= flags.Keys
  {
    var m :=
      if next == CORRIDOR_CROSS then
        if flags[REFUSED_JOURNALIST] && flags[CLOSE_SEAT_V1] then ADD_VAR1
        else if flags[FIRE_ALARM_CROSS2] then ADD_VAR2
        else DEFAULT_MODE
      else DEFAULT_MODE;
    if next == NEW_FLOOR_CROSS && flags[WAIT_STAY_CROSS] then ADD_VAR1 else m
  }

  /** The hard-coded conditions agree with the rule table. */
  lemma FinalModeIsFirstMatch(next: string, flags: map<string, bool>)
    requires FLAG_KEYS <= flags.Keys
    ensures FinalMode(next, flags) == SelectMode(next, flags)
  {
    CorridorRules(flags);
    NewFloorRules(flags);
  }

  /** A choice that leads to `new_floor_cross` after `wait_stay_cross` was visited opens the
      first extra variant, and a choice to any scene without rules opens the default one. */
  lemma FinalModeUnlocks(next: string, flags: map<string, bool>)
    requires FLAG_KEYS <= flags.Keys
    ensures next == NEW_FLOOR_CROSS ==> (FinalMode(next, MarkVisited(flags, next)) == ADD_VAR1 <==> flags[WAIT_STAY_CROSS])
    ensures RulesFor(next) == [] ==> FinalMode(next, MarkVisited(flags, next)) == DEFAULT_MODE
  {
  }

  /** The position of the first occurrence of `x`. */
  function FirstIndex(s: seq<string>, x: string): (i: nat)
    requires x in s
    ensures i < |s| && s[i] == x && x !in s[..i]
  {
    if s[0] == x then 0
    else
      var j := FirstIndex(s[1..], x);
      assert s[..j + 1] == [s[0]] + s[1..][..j];
      j + 1
  }

  lemma FirstIndexUnique(s: seq<string>, x: string, i: nat)
    requires i < |s| && s[i] == x && x !in s[..i]
    ensures FirstIndex(s, x) == i
  {
  }

  /** A value's first occurrence does not move when elements are added at the end. */
  lemma FirstIndexOfPrefix(s: seq<string>, n: nat, x: string)
    requires n <= |s| && x in s[..n]
    ensures FirstIndex(s, x) == FirstIndex(s[..n], x)
  {
    var i := FirstIndex(s[..n], x);
    assert s[..n][..i] == s[..i];
    FirstIndexUnique(s, x, i);
  }

  /** `list(dict.fromkeys(s))`: each value once, in the order of its first occurrence. */
  function Dedup(s: seq<string>): (r: seq<string>)
    ensures forall x :: x in r <==> x in s
    ensures forall i, j :: 0 <= i < j < |r| ==> r[i] != r[j]
    ensures forall i, j :: 0 <= i < j < |r| ==> FirstIndex(s, r[i]) < FirstIndex(s, r[j])
    decreases |s|
  {
    if s == [] then []
    else
      var n := |s| - 1;
      var d := Dedup(s[..n]);
      var x := s[n];
      assert forall y :: y in s <==> y in s[..n] || y == x by {
        assert s == s[..n] + [x];
      }
      assert forall i :: 0 <= i < |d| ==> FirstIndex(s, d[i]) == FirstIndex(s[..n], d[i]) by {
        forall i | 0 <= i < |d| {
          FirstIndexOfPrefix(s, n, d[i]);
        }
      }
      if x in d then d
      else
        FirstIndexUnique(s, x, n);
        d + [x]
  }

  /** The scene ids of a history, `[row["scene_id"] for row in history]`. */
  function SceneIds(rows: seq<ChoiceRow>): (r: seq<string>)
    ensures |r| == |rows|
    ensures forall i :: 0 <= i < |r| ==> r[i] == rows[i].sceneId
  {
    seq(|rows|, i requires 0 <= i < |rows| => rows[i].sceneId)
  }

  /** The numbered menu `rollback` offers. */
  function RollbackMenu(history: seq<ChoiceRow>): seq<string> {
    Dedup(SceneIds(history))
  }

  /** Every scene the menu offers is one the player left by a recorded choice, so rolling back
      to it always finds the row to cut after; an empty history offers nothing. */
  lemma MenuScenesHaveRows(rows: seq<ChoiceRow>, playerId: int)
    ensures RowsOf(rows, playerId) == [] ==> RollbackMenu(RowsOf(rows, playerId)) == []
    ensures forall s :: s in RollbackMenu(RowsOf(rows, playerId)) ==> LastSceneRowId(rows, playerId, s).Some?
  {
    var h := RowsOf(rows, playerId);
    forall s | s in RollbackMenu(h)
      ensures LastSceneRowId(rows, playerId, s).Some?
    {
      var ids := SceneIds(h);
      var i := FirstIndex(ids, s);
      assert h[i] in h && Matches(h[i], playerId, s);
    }
  }

  /** The answer to "which scene?": an index from 1 to the menu's length picks a scene;
      a cancelled dialog or a number out of range picks none. */
  function MenuPick(menu: seq<string>, answer: Option<int>): (r: Option<string>)
    ensures r.Some? <==> answer.Some? && 1 <= answer.value <= |menu|
    ensures r.Some? ==> r.value == menu[answer.value - 1] && r.value in menu
  {
    if answer.Some? && 1 <= answer.value <= |menu| then Some(menu[answer.value - 1]) else None
  }

  /** The scene `rollback` reopens for the ledger rows `rows` and the menu answer: a pick from
      the menu of the player's history, always a scene with a row to roll back to. */
  function RollbackPick(rows: seq<ChoiceRow>, playerId: int, answer: Option<int>): (r: Option<string>)
    ensures r.Some? ==> r.value in RollbackMenu(RowsOf(rows, playerId))
    ensures r.Some? ==> LastSceneRowId(rows, playerId, r.value).Some?
    ensures RowsOf(rows, playerId) == [] ==> r.None?
    ensures r.Some? <==> RowsOf(rows, playerId) != [] && answer.Some? &&
                         1 <= answer.value <= |RollbackMenu(RowsOf(rows, playerId))|
  {
    MenuScenesHaveRows(rows, playerId);
    MenuPick(RollbackMenu(RowsOf(rows, playerId)), answer)
  }

  /** The answer to "what is your name?", with "Player" for a cancelled or empty answer. */
  function NameOrDefault(answer: Option<string>): (name: string)
    ensures name != ""
    ensures answer.Some? && answer.value != "" ==> name == answer.value
    ensures answer.None? || answer.value == "" ==> name == DEFAULT_NAME
  {
    if answer.None? || answer.value == "" then DEFAULT_NAME else answer.value
  }

  class Quest {
    const story: map<string, Scene>
    const statistics: Ledger
    const playerId: int
    var currentScene: string
    var playerName: string
    var state: map<string, bool>
    /** The text shown and the buttons offered. */
    var shownText: string
    var buttons: seq<Choice>

    ghost predicate Valid()
      reads this, statistics
    {
      statistics.Valid() && state.Keys == FLAG_KEYS
    }

    /** `Quest(root)`: a player row named "player" is created at once; nothing is on screen until
        the first `show_scene`. */
    constructor (story: map<string, Scene>, db: Ledger, now: string)
      requires db.Valid()
      modifies db
      ensures Valid() && this.story == story && statistics == db
      ensures currentScene == START && playerName == "" && state == INITIAL_FLAGS
      ensures shownText == "" && buttons == []
      ensures db.players == old(db.players) + [PlayerRow(playerId, PLACEHOLDER_NAME, now)]
      ensures db.choices == old(db.choices)
    {
      var id := db.CreatePlayer(PLACEHOLDER_NAME, now);
      this.story := story;
      statistics := db;
      playerId := id;
      currentScene := START;
      playerName := "";
      state := INITIAL_FLAGS;
      shownText := "";
      buttons := [];
    }

    /** `show_scene(scene_id, mode)`. The current scene changes first; a scene missing from the
        story raises KeyError there, which leaves the screen as it was. */
    method ShowScene(sceneId: string, mode: string)
      modifies this`currentScene, this`shownText, this`buttons
      ensures currentScene == sceneId
      ensures sceneId in story ==> shownText == story[sceneId].text && buttons == Buttons(story[sceneId], mode)
      ensures sceneId !in story ==> shownText == old(shownText) && buttons == old(buttons)
    {
      currentScene := sceneId;
      if sceneId in story {
        var scene := story[sceneId];
        shownText := scene.text;
        buttons := Buttons(scene, mode);
      }
    }

    /** `manage_choice(choice)` for a choice with `next`: ask the name on the way into the
        introduction if there is none yet, mark the destination visited, record the choice
        from the current scene, and open the destination in the mode the flags select. */
    method ManageNext(choice: Choice, nameAnswer: Option<string>, now: string)
      requires Valid() && choice.next.Some?
      modifies this, statistics
      ensures Valid()
      ensures var next := choice.next.value;
        var asks := next == INTRODUCTION && old(playerName) == "";
        && playerName == (if asks then NameOrDefault(nameAnswer) else old(playerName))
        && statistics.players == (if asks then RenamePlayer(old(statistics.players), playerId, playerName)
                                  else old(statistics.players))
        && state == MarkVisited(old(state), next)
        && statistics.choices == old(statistics.choices) +
             [ChoiceRow(old(statistics.nextChoiceId), playerId, old(currentScene), TextOf(choice), next, now)]
        && currentScene == next
        && (next in story ==> shownText == story[next].text &&
                               buttons == Buttons(story[next], SelectMode(next, state)))
        && (next !in story ==> shownText == old(shownText) && buttons == old(buttons))
    {
      var next := choice.next.value;
      if next == INTRODUCTION && playerName == "" {
        AskName(nameAnswer);
      }
      state := MarkVisited(state, next);
      var mode := FinalMode(next, state);
      FinalModeIsFirstMatch(next, state);
      statistics.SaveChoice(playerId, currentScene, TextOf(choice), next, now);
      ShowScene(next, mode);
    }

    /** `manage_choice(choice)`: a `next` wins over an `action`; a choice with neither does
        nothing. */
    method ManageChoice(choice: Choice, nameAnswer: Option<string>, menuAnswer: Option<int>, now: string)
      requires Valid()
      modifies this, statistics
      ensures Valid()
      ensures choice.next.None? && choice.action.None? ==>
        currentScene == old(currentScene) && playerName == old(playerName) && state == old(state) &&
        shownText == old(shownText) && buttons == old(buttons) &&
        statistics.players == old(statistics.players) && statistics.choices == old(statistics.choices)
      ensures choice.next.Some? ==> currentScene == choice.next.value && state == MarkVisited(old(state), choice.next.value)
      ensures choice.next.Some? ==> |statistics.choices| == |old(statistics.choices)| + 1
      ensures choice.next.None? && choice.action == Some(RESTART) ==>
        currentScene == START && playerName == "" && state == INITIAL_FLAGS &&
        statistics.choices == old(statistics.choices)
      ensures choice.next.None? && choice.action.Some? && choice.action.value != RESTART ==>
        state == old(state) && playerName == old(playerName) && statistics.players == old(statistics.players)
    {
      if choice.next.Some? {
        ManageNext(choice, nameAnswer, now);
      } else if choice.action.Some? {
        ManageAction(choice.action.value, menuAnswer);
      }
    }

    /** `manage_action(action)`: restart, roll back or export; any other action does nothing.
        Exporting changes no state (the file name it reports is `ExportHistory`). */
    method ManageAction(action: string, menuAnswer: Option<int>)
      requires Valid()
      modifies this, statistics
      ensures Valid()
      ensures action == RESTART ==>
        currentScene == START && playerName == "" && state == INITIAL_FLAGS &&
        statistics.players == old(statistics.players) && statistics.choices == old(statistics.choices)
      ensures action == ROLLBACK ==>
        var pick := RollbackPick(old(statistics.choices), playerId, menuAnswer);
        && state == old(state) && playerName == old(playerName) && statistics.players == old(statistics.players)
        && (pick.None? ==> currentScene == old(currentScene) && statistics.choices == old(statistics.choices))
        && (pick.Some? ==> currentScene == pick.value &&
                           statistics.choices == RollbackRows(old(statistics.choices), playerId, pick.value))
      ensures action != RESTART && action != ROLLBACK ==>
        currentScene == old(currentScene) && playerName == old(playerName) && state == old(state) &&
        shownText == old(shownText) && buttons == old(buttons) &&
        statistics.players == old(statistics.players) && statistics.choices == old(statistics.choices)
    {
      if action == RESTART {
        RestartGame();
      } else if action == ROLLBACK {
        Rollback(menuAnswer);
      }
    }

    /** `restart_game()`: the name is cleared and every flag reset, but the player row and the
        recorded choices stay. */
    method RestartGame()
      requires Valid()
      modifies this`playerName, this`state, this`currentScene, this`shownText, this`buttons
      ensures Valid()
      ensures playerName == "" && state == INITIAL_FLAGS && currentScene == START
      ensures START in story ==> shownText == story[START].text && buttons == Buttons(story[START], DEFAULT_MODE)
    {
      playerName := "";
      state := map k | k in state :: false;
      assert state == INITIAL_FLAGS;
      ShowScene(START, DEFAULT_MODE);
    }

    /** `ask_name()`: the answer, or "Player", becomes the name on screen and in the ledger. */
    method AskName(answer: Option<string>)
      requires Valid()
      modifies this`playerName, statistics`players
      ensures Valid()
      ensures playerName == NameOrDefault(answer) && playerName != ""
      ensures statistics.players == RenamePlayer(old(statistics.players), playerId, playerName)
    {
      var name := NameOrDefault(answer);
      playerName := name;
      statistics.UpdatePlayerName(playerId, name);
    }

    /** `rollback(...)`: offer the distinct scenes of the player's history; a valid pick cuts
        the ledger after the player's last choice in that scene and reopens it in the default
        mode. The flags are not touched. */
    method Rollback(answer: Option<int>)
      requires Valid()
      modifies this`currentScene, this`shownText, this`buttons, statistics`choices
      ensures Valid()
      ensures var pick := RollbackPick(old(statistics.choices), playerId, answer);
        && (pick.None? ==> currentScene == old(currentScene) && shownText == old(shownText) &&
                           buttons == old(buttons) && statistics.choices == old(statistics.choices))
        && (pick.Some? ==> currentScene == pick.value &&
                           statistics.choices == RollbackRows(old(statistics.choices), playerId, pick.value) &&
                           (pick.value in story ==>
                              shownText == story[pick.value].text &&
                              buttons == Buttons(story[pick.value], DEFAULT_MODE)) &&
                           (pick.value !in story ==> shownText == old(shownText) && buttons == old(buttons)))
    {
      var history := statistics.GetChoicesHistory(playerId);
      ghost var expected := RollbackPick(statistics.choices, playerId, answer);
      if history == [] {
        return;
      }
      var menu := RollbackMenu(history);
      var pick := MenuPick(menu, answer);
      assert pick == expected;
      if pick.None? {
        return;
      }
      var sceneId := pick.value;
      statistics.RollbackToScene(playerId, sceneId);
      ShowScene(sceneId, DEFAULT_MODE);
    }

    /** `export_history()`: the file name reported, or an empty history when the player has no
        recorded choice. */
    function ExportHistory(stamp: string): (r: Option<string>)
      reads this, statistics
      requires Valid()
      ensures r.None? <==> statistics.GetChoicesHistory(playerId) == []
    {
      var rows := statistics.GetChoicesHistory(playerId);
      assert rows != [] ==> rows[0] in rows;
      statistics.ExportHistoryToCsv(playerId, None, stamp)
    }
  }
}
