/** The story document shared by the three JSON-driven engines: scenes keyed by id, each with a
    text, an optional `type` and `choices`, which is either a list of choices or an object whose
    `variants` member maps a mode name to a list of choices. */
module StoryData {
  import opened Wrappers

  /** One JSON choice object. Each key may be absent; the engines read `text` with default "",
      and test `next` and `action` for presence. */
  datatype Choice = Choice(text: Option<string>, next: Option<string>, action: Option<string>)

  /** The shapes the `choices` member can take. A scene without `choices` is `ChoiceList([])`,
      which every engine treats exactly like an absent key. `ChoiceDict(None)` is an object
      without a `variants` member; `OtherShape` is any other JSON value. */
  datatype ChoiceSet =
    | ChoiceList(items: seq<Choice>)
    | ChoiceDict(variants: Option<map<string, seq<Choice>>>)
    | OtherShape

  datatype Scene = Scene(text: string, kind: Option<string>, choices: ChoiceSet)

  /** `c` is one of the choices the `choices` member lists: an entry of the plain list, or an
      entry of the list of some mode in `variants`. */
  ghost predicate Listed(cs: ChoiceSet, c: Choice) {
    match cs
    case ChoiceList(items) => c in items
    case ChoiceDict(variants) => variants.Some? && exists m :: m in variants.value && c in variants.value[m]
    case OtherShape => false
  }

  /** `choice.get("text", "")` */
  function TextOf(c: Choice): string {
    c.text.GetOr("")
  }

  const START := "start"
  const INTRODUCTION := "introduction"
  const CORRIDOR_CROSS := "corridor_cross"
  const NEW_FLOOR_CROSS := "new_floor_cross"
  const DEFAULT_MODE := "default"
  const ADD_VAR1 := "add_var1"
  const ADD_VAR2 := "add_var2"

  const REFUSED_JOURNALIST := "refused_journalist"
  const CLOSE_SEAT_V1 := "close_seat_v1"
  const FIRE_ALARM_CROSS2 := "fire_alarm_cross2"
  const WAIT_STAY_CROSS := "wait_stay_cross"

  /** A flag reads as true only when it is present and set (`flags.get(k)` is falsy otherwise). */
  predicate IsSet(flags: map<string, bool>, k: string) {
    k in flags && flags[k]
  }

  // The mode selection rules written once as a table: for a scene, an ordered list of rules,
  // each asking for a set of flags; the first rule whose flags are all set decides the mode,
  // and "default" is the mode when none does. The engines hard-code this as if/elif chains;
  // their modules prove that the chains agree with this table.

  datatype Rule = Rule(required: seq<string>, mode: string)

  function RulesFor(scene: string): seq<Rule> {
    if scene == CORRIDOR_CROSS then
      [Rule([REFUSED_JOURNALIST, CLOSE_SEAT_V1], ADD_VAR1), Rule([FIRE_ALARM_CROSS2], ADD_VAR2)]
    else if scene == NEW_FLOOR_CROSS then
      [Rule([WAIT_STAY_CROSS], ADD_VAR1)]
    else
      []
  }

  predicate AllSet(flags: map<string, bool>, required: seq<string>) {
    forall i :: 0 <= i < |required| ==> IsSet(flags, required[i])
  }

  /** First-match evaluation of a rule list. The result is the mode of the first rule that
      fires, or "default" exactly when no rule fires. */
  function FirstMatch(rules: seq<Rule>, flags: map<string, bool>): (m: string)
    ensures (forall i :: 0 <= i < |rules| ==> !AllSet(flags, rules[i].required)) ==> m == DEFAULT_MODE
    ensures forall i :: (0 <= i < |rules| && AllSet(flags, rules[i].required) &&
                         forall j :: 0 <= j < i ==> !AllSet(flags, rules[j].required)) ==> m == rules[i].mode
  {
    if rules == [] then DEFAULT_MODE
    else if AllSet(flags, rules[0].required) then rules[0].mode
    else
      var m' := FirstMatch(rules[1..], flags);
      assert forall i :: 1 <= i < |rules| ==> rules[i] == rules[1..][i - 1];
      m'
  }

  function SelectMode(scene: string, flags: map<string, bool>): string {
    FirstMatch(RulesFor(scene), flags)
  }

  /** The table's rules for `corridor_cross`, read out. */
  lemma CorridorRules(flags: map<string, bool>)
    ensures SelectMode(CORRIDOR_CROSS, flags) ==
      if IsSet(flags, REFUSED_JOURNALIST) && IsSet(flags, CLOSE_SEAT_V1) then ADD_VAR1
      else if IsSet(flags, FIRE_ALARM_CROSS2) then ADD_VAR2
      else DEFAULT_MODE
  {
    var rules := RulesFor(CORRIDOR_CROSS);
    var both := rules[0].required;
    var fire := rules[1].required;
    assert |both| == 2 && both[0] == REFUSED_JOURNALIST && both[1] == CLOSE_SEAT_V1;
    assert |fire| == 1 && fire[0] == FIRE_ALARM_CROSS2;
    assert AllSet(flags, both) == (IsSet(flags, both[0]) && IsSet(flags, both[1]));
    assert AllSet(flags, fire) == IsSet(flags, fire[0]);
    assert rules[1..][1..] == [];
  }

  /** The table's rule for `new_floor_cross`, read out. */
  lemma NewFloorRules(flags: map<string, bool>)
    ensures SelectMode(NEW_FLOOR_CROSS, flags) == if IsSet(flags, WAIT_STAY_CROSS) then ADD_VAR1 else DEFAULT_MODE
  {
    var rules := RulesFor(NEW_FLOOR_CROSS);
    var wait := rules[0].required;
    assert |wait| == 1 && wait[0] == WAIT_STAY_CROSS;
    assert AllSet(flags, wait) == IsSet(flags, wait[0]);
    assert rules[1..] == [];
  }
}
