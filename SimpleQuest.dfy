/** The simplified engine (Project/scr/main_1.py, `QuestGame` and the state part of
    `QuestGameUI.submit_name`): default-only choice sets, a move that happens only into a scene
    of the story, and a history of (scene, choice text) entries scanned for the decision taken
    at the journalist. */
module SimpleQuest {
  import opened Wrappers
  import opened StoryData

  const JOURNALIST := "journalist"
  const TALK_WORD := "Поговорить"
  const REFUSE_WORD := "Отказаться"
  const TALK := "talk"
  const REFUSE := "refuse"

  /** One `choice_history` entry, `{"scene": ..., "choice": ...}`. */
  datatype HistoryItem = HistoryItem(scene: string, choice: string)

  /** Python's `str.isspace` for one character: the Unicode whitespace characters. */
  predicate IsSpace(c: char) {
    c == ' ' || ('\t' <= c <= '\r') || ('\U{1c}' <= c <= '\U{1f}') || c == '\U{85}' || c == '\U{a0}' ||
    c == '\U{1680}' || ('\U{2000}' <= c <= '\U{200a}') || c == '\U{2028}' || c == '\U{2029}' ||
    c == '\U{202f}' || c == '\U{205f}' || c == '\U{3000}'
  }

  predicate Blank(s: string) {
    forall i :: 0 <= i < |s| ==> IsSpace(s[i])
  }

  /** `str.lstrip()`: the result is a suffix of `s`, and what was cut is whitespace. */
  function TrimStart(s: string): (r: string)
    ensures r == [] || !IsSpace(r[0])
    ensures |r| <= |s| && r == s[|s| - |r|..] && Blank(s[..|s| - |r|])
  {
    if s != [] && IsSpace(s[0]) then
      var r := TrimStart(s[1..]);
      assert s[1..][..|s| - 1 - |r|] == s[1..|s| - |r|];
      r
    else
      s
  }

  /** `str.rstrip()`: the result is a prefix of `s`, and what was cut is whitespace. */
  function TrimEnd(s: string): (r: string)
    ensures r == [] || !IsSpace(r[|r| - 1])
    ensures |r| <= |s| && r == s[..|r|] && Blank(s[|r|..])
  {
    if s != [] && IsSpace(s[|s| - 1]) then
      var r := TrimEnd(s[..|s| - 1]);
      forall m | |r| <= m < |s|
        ensures IsSpace(s[m])
      {
        if m < |s| - 1 {
          assert s[..|s| - 1][|r|..][m - |r|] == s[m];
        }
      }
      r
    else
      assert s[..|s|] == s && s[|s|..] == [];
      s
  }

  /** `str.strip()`. */
  function Strip(s: string): string {
    TrimEnd(TrimStart(s))
  }

  /** The stripped string is the middle of the original, with only whitespace cut from either
      side, and it neither starts nor ends with whitespace. */
  lemma StripIsTrimmedMiddle(s: string)
    ensures var r := Strip(s);
      && (r == [] || (!IsSpace(r[0]) && !IsSpace(r[|r| - 1])))
      && exists i, j :: 0 <= i <= j <= |s| && r == s[i..j] && Blank(s[..i]) && Blank(s[j..])
  {
    var t := TrimStart(s);
    var r := TrimEnd(t);
    var i := |s| - |t|;
    var j := i + |r|;
    assert r == s[i..j];
    assert s[j..] == t[|r|..];
    if r != [] {
      assert t[0] == r[0];
    }
    assert 0 <= i <= j <= |s| && r == s[i..j] && Blank(s[..i]) && Blank(s[j..]);
  }

  /** `name.strip()` is empty exactly when the name is blank. */
  lemma StripEmptyIffBlank(s: string)
    ensures Strip(s) == [] <==> Blank(s)
  {
    StripIsTrimmedMiddle(s);
    var r := Strip(s);
    var i, j :| 0 <= i <= j <= |s| && r == s[i..j] && Blank(s[..i]) && Blank(s[j..]);
    if r != [] {
      assert r[0] == s[i] && !IsSpace(s[i]);
    } else {
      assert i == j;
      forall m | 0 <= m < |s|
        ensures IsSpace(s[m])
      {
        if m < i {
          assert s[..i][m] == s[m];
        } else {
          assert s[j..][m - j] == s[m];
        }
      }
    }
  }

  lemma TrimStartNoLead(s: string)
    requires s == [] || !IsSpace(s[0])
    ensures TrimStart(s) == s
  {
  }

  lemma TrimEndNoTrail(s: string)
    requires s == [] || !IsSpace(s[|s| - 1])
    ensures TrimEnd(s) == s
  {
  }

  /** Stripping twice is stripping once. */
  lemma StripIdempotent(s: string)
    ensures Strip(Strip(s)) == Strip(s)
  {
    StripIsTrimmedMiddle(s);
    var r := Strip(s);
    TrimStartNoLead(r);
    TrimEndNoTrail(r);
  }

  /** `sub in s` for strings. */
  ghost predicate Occurs(sub: string, s: string) {
    exists i :: OccursAt(sub, s, i)
  }

  predicate OccursAt(sub: string, s: string, i: int) {
    0 <= i <= |s| - |sub| && s[i..i + |sub|] == sub
  }

  lemma TailSlice(s: string, a: int, b: int)
    requires 1 <= a <= b <= |s|
    ensures s[1..][a - 1..b - 1] == s[a..b]
  {
  }

  /** Dropping the first character keeps every occurrence but one at position 0. */
  lemma OccursStep(s: string, sub: string)
    requires |sub| <= |s| && s[..|sub|] != sub
    ensures Occurs(sub, s) <==> Occurs(sub, s[1..])
  {
    if Occurs(sub, s) {
      var i :| OccursAt(sub, s, i);
      assert i != 0;
      TailSlice(s, i, i + |sub|);
      assert OccursAt(sub, s[1..], i - 1);
    }
    if Occurs(sub, s[1..]) {
      var i :| OccursAt(sub, s[1..], i);
      TailSlice(s, i + 1, i + 1 + |sub|);
      assert OccursAt(sub, s, i + 1);
    }
  }

  function Contains(s: string, sub: string): (b: bool)
    ensures b <==> Occurs(sub, s)
    decreases |s|
  {
    if |sub| > |s| then false
    else if s[..|sub|] == sub then
      assert OccursAt(sub, s, 0);
      true
    else
      OccursStep(s, sub);
      Contains(s[1..], sub)
  }

  /** A history entry that settles the journalist question, and what it settles it to. */
  ghost predicate Decisive(item: HistoryItem) {
    item.scene == JOURNALIST && (Occurs(TALK_WORD, item.choice) || Occurs(REFUSE_WORD, item.choice))
  }

  ghost function Verdict(item: HistoryItem): string {
    if Occurs(TALK_WORD, item.choice) then TALK else REFUSE
  }

  /** Entry `i` is the first decisive one. */
  ghost predicate FirstDecisiveAt(history: seq<HistoryItem>, i: int) {
    0 <= i < |history| && Decisive(history[i]) && forall j :: 0 <= j < i ==> !Decisive(history[j])
  }

  lemma FirstDecisiveShift(history: seq<HistoryItem>, i: int)
    requires history != [] && !Decisive(history[0]) && FirstDecisiveAt(history[1..], i)
    ensures FirstDecisiveAt(history, i + 1)
  {
    forall j | 0 <= j < i + 1
      ensures !Decisive(history[j])
    {
      if j > 0 {
        assert history[j] == history[1..][j - 1];
      }
    }
  }

  /** `get_journalist_choice()`: the verdict of the first decisive entry; "talk" wins when an
      entry mentions both; None when no entry is decisive. */
  function GetJournalistChoice(history: seq<HistoryItem>): (r: Option<string>)
    ensures r.None? <==> forall i :: 0 <= i < |history| ==> !Decisive(history[i])
    ensures r.Some? ==> exists i :: FirstDecisiveAt(history, i) && r.value == Verdict(history[i])
  {
    if history == [] then None
    else
      var item := history[0];
      if item.scene == JOURNALIST && Contains(item.choice, TALK_WORD) then
        assert FirstDecisiveAt(history, 0);
        Some(TALK)
      else if item.scene == JOURNALIST && Contains(item.choice, REFUSE_WORD) then
        assert FirstDecisiveAt(history, 0);
        Some(REFUSE)
      else
        var r := GetJournalistChoice(history[1..]);
        assert !Decisive(history[0]);
        assert r.None? <==> forall i :: 0 <= i < |history| ==> !Decisive(history[i]) by {
          assert forall i :: 1 <= i < |history| ==> history[i] == history[1..][i - 1];
        }
        assert r.Some? ==> exists i :: FirstDecisiveAt(history, i) && r.value == Verdict(history[i]) by {
          if r.Some? {
            var i :| FirstDecisiveAt(history[1..], i) && r.value == Verdict(history[1..][i]);
            FirstDecisiveShift(history, i);
            assert history[i + 1] == history[1..][i];
          }
        }
        r
  }

  /** Adding entries after the first decisive one never changes the answer. */
  lemma {:induction false} JournalistChoiceStable(history: seq<HistoryItem>, more: seq<HistoryItem>)
    requires GetJournalistChoice(history).Some?
    ensures GetJournalistChoice(history + more) == GetJournalistChoice(history)
  {
    var h := history + more;
    var item := history[0];
    assert h[0] == item;
    if item.scene == JOURNALIST && Contains(item.choice, TALK_WORD) {
    } else if item.scene == JOURNALIST && Contains(item.choice, REFUSE_WORD) {
    } else {
      assert history[1..] + more == h[1..];
      JournalistChoiceStable(history[1..], more);
    }
  }

  /** `get_available_choices(scene)`: only the "default" variant ever; a list as it is;
      anything else gives none. */
  function GetAvailableChoices(scene: Scene): (r: seq<Choice>)
    ensures forall c :: c in r ==> Listed(scene.choices, c)
    ensures scene.choices.ChoiceDict? && r != [] ==>
      scene.choices.variants.Some? && DEFAULT_MODE in scene.choices.variants.value &&
      r == scene.choices.variants.value[DEFAULT_MODE]
  {
    match scene.choices
    case ChoiceList(items) => items
    case ChoiceDict(variants) =>
      var vs := variants.GetOr(map[]);
      if DEFAULT_MODE in vs then vs[DEFAULT_MODE] else []
    case OtherShape => []
  }

  class QuestGame {
    const story: map<string, Scene>
    var currentScene: string
    var playerName: string
    var choiceHistory: seq<HistoryItem>

    /** The current scene is a scene of the story or one of the two the code sets by name. */
    ghost predicate Valid()
      reads this
    {
      currentScene in story || currentScene == START || currentScene == INTRODUCTION
    }

    constructor (story: map<string, Scene>)
      ensures Valid() && this.story == story
      ensures currentScene == START && playerName == "" && choiceHistory == []
    {
      this.story := story;
      currentScene := START;
      playerName := "";
      choiceHistory := [];
    }

    /** `get_current_scene()`: a missing scene reads as `{}`, which has no choices. */
    function GetCurrentScene(): (s: Scene)
      reads this
      ensures currentScene in story ==> s == story[currentScene]
      ensures currentScene !in story ==> GetAvailableChoices(s) == []
    {
      if currentScene in story then story[currentScene] else Scene("", None, ChoiceList([]))
    }

    /** `set_player_name(name)`: a blank name is ignored, any other is stored stripped. */
    method SetPlayerName(name: string)
      modifies this`playerName
      ensures Strip(name) == "" ==> playerName == old(playerName)
      ensures Strip(name) != "" ==> playerName == Strip(name)
      ensures Blank(name) ==> playerName == old(playerName)
      ensures !Blank(name) ==> playerName == Strip(name) && playerName != ""
    {
      StripEmptyIffBlank(name);
      var stripped := Strip(name);
      if stripped != "" {
        playerName := stripped;
      }
    }

    /** `make_choice(choice_index)`: an index outside the current choices is refused with no
        change; a valid one is recorded even when its target is not a scene of the story, and
        the move happens (and True is returned) only when it is. */
    method MakeChoice(choiceIndex: int) returns (moved: bool)
      requires Valid()
      modifies this`currentScene, this`choiceHistory
      ensures Valid()
      ensures var choices := GetAvailableChoices(old(GetCurrentScene()));
        && (!(0 <= choiceIndex < |choices|) ==>
              !moved && currentScene == old(currentScene) && choiceHistory == old(choiceHistory))
        && (0 <= choiceIndex < |choices| ==>
              var choice := choices[choiceIndex];
              && choiceHistory == old(choiceHistory) + [HistoryItem(old(currentScene), TextOf(choice))]
              && (moved <==> choice.next.Some? && choice.next.value in story)
              && currentScene == if moved then choice.next.value else old(currentScene))
    {
      var choices := GetAvailableChoices(GetCurrentScene());
      if choices == [] || !(0 <= choiceIndex < |choices|) {
        return false;
      }
      var choice := choices[choiceIndex];
      choiceHistory := choiceHistory + [HistoryItem(currentScene, TextOf(choice))];
      if choice.next.Some? && choice.next.value in story {
        currentScene := choice.next.value;
        return true;
      }
      return false;
    }

    /** `reset_game()`. */
    method ResetGame()
      modifies this
      ensures Valid()
      ensures currentScene == START && choiceHistory == [] && playerName == ""
    {
      currentScene := START;
      choiceHistory := [];
      playerName := "";
    }

    /** `submit_name(name)`: a blank name changes nothing (a warning is shown); otherwise the
        stripped name is stored and the game goes to the introduction. */
    method SubmitName(name: string)
      requires Valid()
      modifies this`playerName, this`currentScene
      ensures Blank(name) ==> playerName == old(playerName) && currentScene == old(currentScene)
      ensures !Blank(name) ==> playerName == Strip(name) && currentScene == INTRODUCTION
      ensures Valid()
    {
      var stripped := Strip(name);
      StripEmptyIffBlank(name);
      if stripped != "" {
        StripIdempotent(name);
        SetPlayerName(stripped);
        currentScene := INTRODUCTION;
      }
    }
  }
}
