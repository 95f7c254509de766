/** The flag- and mode-driven engine with save slots (Project/scr/game_start_saves.py): a
    `GameState` record (current node, player name, flags, choice history, timestamp) that can be
    turned into a dictionary and back, story nodes whose choices may depend on a mode, and a
    `GameEngine` that picks the mode from the flags, applies choices, sets flags from a fixed
    table and jumps back through the history. */
module SavesEngine {
  import opened Wrappers
  import opened StoryData

  const RESTART := "restart"
  const DEFAULT_NAME := "Player"
  const GAME_OVER := "game_over"
  const FINAL := "final"

  /** One `choice_history` entry: `{"node", "choice_text", "timestamp"}`. */
  datatype HistoryEntry = HistoryEntry(node: string, choiceText: string, timestamp: string)

  datatype GameState = GameState(
    currentNode: string,
    playerName: string,
    flags: map<string, bool>,
    choiceHistory: seq<HistoryEntry>,
    timestamp: string)

  /** `GameState()`, with `datetime.now().isoformat()` given as `now`. */
  function FreshState(now: string): GameState {
    GameState(START, "", map[], [], now)
  }

  /** The dictionary of a saved state, as `from_dict` finds it: any key may be missing. */
  datatype SaveDict = SaveDict(
    currentNode: Option<string>,
    playerName: Option<string>,
    flags: Option<map<string, bool>>,
    choiceHistory: Option<seq<HistoryEntry>>,
    timestamp: Option<string>)

  /** `from_dict`: each missing key falls back to the value a fresh `GameState` has. */
  function FromDict(d: SaveDict, now: string): GameState {
    GameState(
      d.currentNode.GetOr(START),
      d.playerName.GetOr(""),
      d.flags.GetOr(map[]),
      d.choiceHistory.GetOr([]),
      d.timestamp.GetOr(now))
  }

  /** `to_dict` writes every field, so `from_dict` reads back the same state whatever clock it
      is given. */
  function ToDict(s: GameState): (d: SaveDict)
    ensures forall now :: FromDict(d, now) == s
  {
    SaveDict(Some(s.currentNode), Some(s.playerName), Some(s.flags), Some(s.choiceHistory), Some(s.timestamp))
  }

  /** A dictionary without any of the keys loads as a fresh game: node "start", no name, no
      flags, no history. */
  lemma EmptyDictIsFreshState(now: string)
    ensures FromDict(SaveDict(None, None, None, None, None), now) == FreshState(now)
  {
  }

  /** `StoryNode`: `text`, `choices` and `type` default to "", [] and "default". */
  datatype StoryNode = StoryNode(id: string, text: string, choices: ChoiceSet, kind: string)

  /** `get_available_choices(mode)`: a `variants` object gives the list for `mode`, else the
      "default" list, else none; a plain list serves every mode; any other shape gives none. */
  function GetAvailableChoices(n: StoryNode, mode: string): (r: seq<Choice>)
    ensures forall c :: c in r ==> Listed(n.choices, c)
    ensures n.choices.ChoiceDict? && n.choices.variants.Some? && mode in n.choices.variants.value ==>
      r == n.choices.variants.value[mode]
  {
    match n.choices
    case ChoiceDict(Some(variants)) =>
      if mode in variants then variants[mode] else if DEFAULT_MODE in variants then variants[DEFAULT_MODE] else []
    case ChoiceList(items) => items
    case _ => []
  }

  /** A mode without a variant of its own is served exactly what the "default" mode is. */
  lemma SavesFallsBackToDefault(n: StoryNode, mode: string)
    requires n.choices.ChoiceDict? && n.choices.variants.Some? && mode !in n.choices.variants.value
    ensures GetAvailableChoices(n, mode) == GetAvailableChoices(n, DEFAULT_MODE)
  {
  }

  /** A plain list is served the same, whatever the mode. */
  lemma SavesListIgnoresMode(n: StoryNode, mode: string, other: string)
    requires n.choices.ChoiceList?
    ensures GetAvailableChoices(n, mode) == GetAvailableChoices(n, other) == n.choices.items
  {
  }

  /** The rule logic of `_update_mode`, on the node id and the flags. */
  function ModeFor(nodeId: string, flags: map<string, bool>): string {
    if nodeId == CORRIDOR_CROSS then
      if IsSet(flags, REFUSED_JOURNALIST) && IsSet(flags, CLOSE_SEAT_V1) then ADD_VAR1
      else if IsSet(flags, FIRE_ALARM_CROSS2) then ADD_VAR2
      else DEFAULT_MODE
    else if nodeId == NEW_FLOOR_CROSS then
      if IsSet(flags, WAIT_STAY_CROSS) then ADD_VAR1 else DEFAULT_MODE
    else DEFAULT_MODE
  }

  /** The if/elif chain of `_update_mode` is exactly first-match evaluation of the rule table. */
  lemma ModeForIsFirstMatch(nodeId: string, flags: map<string, bool>)
    ensures ModeFor(nodeId, flags) == SelectMode(nodeId, flags)
  {
    if nodeId == CORRIDOR_CROSS {
      CorridorRules(flags);
    } else if nodeId == NEW_FLOOR_CROSS {
      NewFloorRules(flags);
    } else {
      assert RulesFor(nodeId) == [];
    }
  }

  /** The modes `corridor_cross` gets from the flag sets that unlock its two variants, and
      from no flags at all. */
  lemma CorridorModes()
    ensures ModeFor(CORRIDOR_CROSS, map[REFUSED_JOURNALIST := true, CLOSE_SEAT_V1 := true]) == ADD_VAR1
    ensures ModeFor(CORRIDOR_CROSS, map[FIRE_ALARM_CROSS2 := true]) == ADD_VAR2
    ensures ModeFor(CORRIDOR_CROSS, map[]) == DEFAULT_MODE
  {
  }

  /** The fixed table of `_update_flags`: destination scene to the flag it sets. */
  const FLAG_UPDATES: map<string, string> := map[
    "refuse" := REFUSED_JOURNALIST,
    CLOSE_SEAT_V1 := CLOSE_SEAT_V1,
    WAIT_STAY_CROSS := WAIT_STAY_CROSS,
    FIRE_ALARM_CROSS2 := FIRE_ALARM_CROSS2]

  /** `flags.update(...)` for a move into `next`: at most the table's flag for `next` changes,
      and it becomes true; nothing is ever cleared. */
  function WithFlagsFor(flags: map<string, bool>, next: string): (r: map<string, bool>)
    ensures r.Keys == if next in FLAG_UPDATES then flags.Keys + {FLAG_UPDATES[next]} else flags.Keys
    ensures next in FLAG_UPDATES ==> r[FLAG_UPDATES[next]]
    ensures forall k :: k in flags && (next !in FLAG_UPDATES || k != FLAG_UPDATES[next]) ==> r[k] == flags[k]
    ensures forall k :: IsSet(flags, k) ==> IsSet(r, k)
  {
    if next in FLAG_UPDATES then flags[FLAG_UPDATES[next] := true] else flags
  }

  /** The state change of one valid choice in `make_choice`: the history entry is written
      first, then a "restart" action installs a fresh state, then a `next` target sets its
      flag and becomes the current node. */
  function ApplyChoice(s: GameState, c: Choice, entryTime: string, restartTime: string): (r: GameState)
    ensures c.action != Some(RESTART) ==>
      r.choiceHistory == s.choiceHistory + [HistoryEntry(s.currentNode, TextOf(c), entryTime)] &&
      r.playerName == s.playerName && r.timestamp == s.timestamp &&
      (forall k :: IsSet(s.flags, k) ==> IsSet(r.flags, k))
    ensures c.action == Some(RESTART) ==>
      r.choiceHistory == [] && r.playerName == "" && r.timestamp == restartTime &&
      r.flags.Keys <= set k | k in FLAG_UPDATES.Values
    ensures r.currentNode == if c.next.Some? then c.next.value
                             else if c.action == Some(RESTART) then START
                             else s.currentNode
    ensures forall k :: k in r.flags && !r.flags[k] ==> k in s.flags && !s.flags[k] && c.action != Some(RESTART)
    ensures c.next.Some? ==>
      r.flags == WithFlagsFor((if c.action == Some(RESTART) then FreshState(restartTime) else s).flags, c.next.value)
    ensures c.next.None? && c.action != Some(RESTART) ==> r.flags == s.flags
  {
    var recorded := s.(choiceHistory := s.choiceHistory + [HistoryEntry(s.currentNode, TextOf(c), entryTime)]);
    var acted := if c.action == Some(RESTART) then FreshState(restartTime) else recorded;
    if c.next.Some? then
      acted.(flags := WithFlagsFor(acted.flags, c.next.value), currentNode := c.next.value)
    else acted
  }

  /** The history `jump_to_node` keeps: the entries before the first one taken at `nodeId`, or
      all of them when there is none. */
  function TruncateBeforeFirst(h: seq<HistoryEntry>, nodeId: string): (r: seq<HistoryEntry>)
    ensures |r| <= |h| && r == h[..|r|]
    ensures forall i :: 0 <= i < |r| ==> r[i].node != nodeId
    ensures |r| < |h| ==> h[|r|].node == nodeId
  {
    if h == [] || h[0].node == nodeId then []
    else
      var tail := TruncateBeforeFirst(h[1..], nodeId);
      assert h[1..][..|tail|] == h[1..|tail| + 1];
      [h[0]] + tail
  }

  /** The three facts about `TruncateBeforeFirst` pin it down: any prefix without an entry for
      `nodeId` that stops at such an entry or at the end is that truncation. */
  lemma {:induction false} TruncateBeforeFirstUnique(h: seq<HistoryEntry>, nodeId: string, p: nat)
    requires p <= |h|
    requires forall i :: 0 <= i < p ==> h[i].node != nodeId
    requires p < |h| ==> h[p].node == nodeId
    ensures TruncateBeforeFirst(h, nodeId) == h[..p]
  {
  }

  /** `GameEngine`: the story is fixed once loaded; the state and the mode change. */
  class GameEngine {
    const story: map<string, StoryNode>
    var state: GameState
    var mode: string

    /** `GameEngine.__init__` once `_load_story` has built the story. */
    constructor (story: map<string, StoryNode>, now: string)
      ensures this.story == story && state == FreshState(now) && mode == DEFAULT_MODE
    {
      this.story := story;
      state := FreshState(now);
      mode := DEFAULT_MODE;
    }

    function GetCurrentNode(): Option<StoryNode>
      reads this
    {
      if state.currentNode in story then Some(story[state.currentNode]) else None
    }

    /** `_update_mode`: only the mode changes. */
    method UpdateMode()
      modifies this`mode
      ensures mode == ModeFor(state.currentNode, state.flags)
    {
      var nodeId := state.currentNode;
      if nodeId == CORRIDOR_CROSS {
        if IsSet(state.flags, REFUSED_JOURNALIST) && IsSet(state.flags, CLOSE_SEAT_V1) {
          mode := ADD_VAR1;
        } else if IsSet(state.flags, FIRE_ALARM_CROSS2) {
          mode := ADD_VAR2;
        } else {
          mode := DEFAULT_MODE;
        }
      } else if nodeId == NEW_FLOOR_CROSS {
        if IsSet(state.flags, WAIT_STAY_CROSS) {
          mode := ADD_VAR1;
        } else {
          mode := DEFAULT_MODE;
        }
      } else {
        mode := DEFAULT_MODE;
      }
    }

    /** `make_choice(choice_index)`. A missing current node changes nothing. Otherwise the mode
        is brought up to date, and an index outside the available choices returns false with
        the state unchanged; a valid one applies the choice. */
    method MakeChoice(choiceIndex: int, entryTime: string, restartTime: string) returns (ok: bool)
      modifies this
      ensures old(state.currentNode) !in story ==> !ok && state == old(state) && mode == old(mode)
      ensures old(state.currentNode) in story ==>
        var choices := GetAvailableChoices(story[old(state.currentNode)], ModeFor(old(state.currentNode), old(state.flags)));
        ok == (0 <= choiceIndex < |choices|) &&
        state == (if ok then ApplyChoice(old(state), choices[choiceIndex], entryTime, restartTime) else old(state)) &&
        mode == (if ok && choices[choiceIndex].action == Some(RESTART) then DEFAULT_MODE
                 else ModeFor(old(state.currentNode), old(state.flags)))
    {
      var currentNode := GetCurrentNode();
      if currentNode.None? {
        return false;
      }
      UpdateMode();
      var choices := GetAvailableChoices(currentNode.value, mode);
      if 0 <= choiceIndex < |choices| {
        var choice := choices[choiceIndex];
        state := state.(choiceHistory := state.choiceHistory + [HistoryEntry(state.currentNode, TextOf(choice), entryTime)]);
        if choice.action.Some? {
          HandleAction(choice.action.value, restartTime);
        }
        if choice.next.Some? {
          UpdateFlags(choice.next.value);
          state := state.(currentNode := choice.next.value);
        }
        return true;
      }
      return false;
    }

    /** `_update_flags(next_scene)`: only the flags change. */
    method UpdateFlags(nextScene: string)
      modifies this`state
      ensures state == old(state).(flags := WithFlagsFor(old(state).flags, nextScene))
    {
      if nextScene in FLAG_UPDATES {
        state := state.(flags := state.flags[FLAG_UPDATES[nextScene] := true]);
      }
    }

    /** `_handle_action`: "restart" restarts the game; every other action does nothing. */
    method HandleAction(action: string, now: string)
      modifies this
      ensures action == RESTART ==> state == FreshState(now) && mode == DEFAULT_MODE
      ensures action != RESTART ==> state == old(state) && mode == old(mode)
    {
      if action == RESTART {
        RestartGame(now);
      }
    }

    /** `jump_to_node(node_id)`: an unknown id is refused with nothing changed; a known one cuts
        the history before its first entry for that node and makes it current. */
    method JumpToNode(nodeId: string) returns (ok: bool)
      modifies this`state
      ensures ok == (nodeId in story)
      ensures !ok ==> state == old(state)
      ensures ok ==> state == old(state).(choiceHistory := TruncateBeforeFirst(old(state).choiceHistory, nodeId),
                                          currentNode := nodeId)
    {
      if nodeId in story {
        var h := state.choiceHistory;
        var i := 0;
        while i < |h|
          invariant 0 <= i <= |h|
          invariant forall j :: 0 <= j < i ==> h[j].node != nodeId
          invariant state == old(state)
        {
          if h[i].node == nodeId {
            state := state.(choiceHistory := h[..i]);
            break;
          }
          i := i + 1;
        }
        TruncateBeforeFirstUnique(h, nodeId, i);
        state := state.(currentNode := nodeId);
        return true;
      }
      return false;
    }

    /** `restart_game`: a fresh state and the default mode. */
    method RestartGame(now: string)
      modifies this
      ensures state == FreshState(now) && mode == DEFAULT_MODE
    {
      state := FreshState(now);
      mode := DEFAULT_MODE;
    }

    /** `is_game_over`: the current node exists and its type is "game_over" or "final". */
    predicate IsGameOver()
      reads this
      ensures IsGameOver() ==> state.currentNode in story
      ensures state.currentNode in story ==>
        (IsGameOver() <==> story[state.currentNode].kind in [GAME_OVER, FINAL])
    {
      var n := GetCurrentNode();
      n.Some? && (n.value.kind == GAME_OVER || n.value.kind == FINAL)
    }

    /** `ask_player_name(name)`: an empty answer becomes "Player". */
    method AskPlayerName(name: string)
      modifies this`state
      ensures state == old(state).(playerName := if name == "" then DEFAULT_NAME else name)
    {
      state := state.(playerName := if name != "" then name else DEFAULT_NAME);
    }
  }

  /** A valid choice that carries a "restart" action discards the entry it has just written,
      along with everything else: what remains is a fresh state, moved to the choice's target
      when it has one. */
  lemma RestartDiscardsEntry(s: GameState, c: Choice, entryTime: string, restartTime: string)
    requires c.action == Some(RESTART) && c.next.None?
    ensures ApplyChoice(s, c, entryTime, restartTime) == FreshState(restartTime)
  {
  }
}
