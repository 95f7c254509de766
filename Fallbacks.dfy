/** How the three JSON-driven engines read the same `choices` member. The save-capable engine
    falls back from the requested mode to "default"; the final engine does not; the simplified
    engine always reads "default". */
module Fallbacks {
  import opened Wrappers
  import opened StoryData
  import SavesEngine
  import FinalQuest
  import SimpleQuest

  /** In the default mode all three engines offer the same choices. */
  lemma DefaultModeAgrees(id: string, text: string, kind: Option<string>, nodeKind: string, choices: ChoiceSet)
    ensures var scene := Scene(text, kind, choices);
      var node := SavesEngine.StoryNode(id, text, choices, nodeKind);
      && FinalQuest.GetChoices(scene, DEFAULT_MODE) == SavesEngine.GetAvailableChoices(node, DEFAULT_MODE)
      && SimpleQuest.GetAvailableChoices(scene) == SavesEngine.GetAvailableChoices(node, DEFAULT_MODE)
  {
  }

  /** In any mode the final engine and the save-capable engine part ways exactly when the mode
      has no variant of its own and the "default" variant is not empty. */
  lemma FinalDiffersFromSaves(id: string, text: string, kind: Option<string>, nodeKind: string,
                              choices: ChoiceSet, mode: string)
    ensures var scene := Scene(text, kind, choices);
      var node := SavesEngine.StoryNode(id, text, choices, nodeKind);
      FinalQuest.GetChoices(scene, mode) != SavesEngine.GetAvailableChoices(node, mode) <==>
        choices.ChoiceDict? && choices.variants.Some? && mode !in choices.variants.value &&
        DEFAULT_MODE in choices.variants.value && choices.variants.value[DEFAULT_MODE] != []
  {
  }

  /** When the mode has a variant of its own, the simplified engine shows the "default"
      variant instead: the two differ exactly when the variants differ. */
  lemma SimpleIgnoresMode(text: string, kind: Option<string>, variants: map<string, seq<Choice>>, mode: string)
    requires mode in variants && DEFAULT_MODE in variants
    ensures var scene := Scene(text, kind, ChoiceDict(Some(variants)));
      SimpleQuest.GetAvailableChoices(scene) == FinalQuest.GetChoices(scene, mode) <==>
        variants[DEFAULT_MODE] == variants[mode]
  {
  }
}
