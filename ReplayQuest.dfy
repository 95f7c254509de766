/** The replay-based two-way story engine (Project/scr/quest.py). Every node offers the choices
    "A" and "B", each leading to another node or to the end of the story. A game keeps the
    current node and the list of (node id, choice) pairs taken so far; rolling back cuts that
    list and rebuilds the current node by replaying the cut list from the start node. */
module ReplayQuest {
  import opened Wrappers

  const A := "A"
  const B := "B"

  /** `ChoiceNode`: an id, a text and a `next` table from choice name to an optional node id. */
  datatype ChoiceNode = ChoiceNode(id: string, text: string, next: map<string, Option<string>>)

  /** One history entry, the pair `(node id, choice)`. */
  type Entry = (string, string)

  /** The JSON object of one node: `text` and the optional targets `A` and `B`. */
  datatype RawNode = RawNode(text: string, a: Option<string>, b: Option<string>)

  /** `ChoiceNode.__init__`: the `next` table always has exactly the two keys "A" and "B". */
  function NewChoiceNode(nodeId: string, text: string, nextA: Option<string>, nextB: Option<string>): (n: ChoiceNode)
    ensures n.id == nodeId && n.text == text
    ensures n.next.Keys == {A, B}
    ensures n.next[A] == nextA && n.next[B] == nextB
  {
    ChoiceNode(nodeId, text, map[A := nextA, B := nextB])
  }

  /** Every node is stored under its own id. */
  ghost predicate Keyed(nodes: map<string, ChoiceNode>) {
    forall k :: k in nodes ==> nodes[k].id == k
  }

  /** Every node has the two-way `next` table. */
  ghost predicate TwoWay(nodes: map<string, ChoiceNode>) {
    forall k :: k in nodes ==> nodes[k].next.Keys == {A, B}
  }

  /** No dangling reference: every target named in a `next` table is a node of the story.
      The source looks targets up with `nodes[next_id]`, which fails on a dangling one. */
  ghost predicate Closed(nodes: map<string, ChoiceNode>) {
    forall k :: k in nodes ==> TargetsIn(nodes[k], nodes.Keys)
  }

  ghost predicate TargetsIn(n: ChoiceNode, ids: set<string>) {
    forall c :: c in n.next && n.next[c].Some? ==> n.next[c].value in ids
  }

  ghost predicate StoryOk(nodes: map<string, ChoiceNode>) {
    Keyed(nodes) && Closed(nodes)
  }

  /** The current position is either the end (`None`) or a node of the story. */
  ghost predicate InStory(nodes: map<string, ChoiceNode>, cur: Option<ChoiceNode>) {
    cur.Some? ==> cur.value.id in nodes && nodes[cur.value.id] == cur.value
  }

  /** `load_story_from_json` after the JSON has been read: one node per key, built from that
      key's `text`, `A` and `B`. */
  method LoadStory(raw: map<string, RawNode>) returns (nodes: map<string, ChoiceNode>)
    ensures nodes.Keys == raw.Keys
    ensures forall k :: k in nodes ==> nodes[k] == NewChoiceNode(k, raw[k].text, raw[k].a, raw[k].b)
    ensures Keyed(nodes) && TwoWay(nodes)
  {
    nodes := map[];
    var todo := raw.Keys;
    while todo != {}
      invariant todo <= raw.Keys
      invariant nodes.Keys == raw.Keys - todo
      invariant forall k :: k in nodes ==> nodes[k] == NewChoiceNode(k, raw[k].text, raw[k].a, raw[k].b)
      decreases todo
    {
      var k :| k in todo;
      nodes := nodes[k := NewChoiceNode(k, raw[k].text, raw[k].a, raw[k].b)];
      todo := todo - {k};
    }
  }

  /** The move `make_choice` makes from node `cur`: `next.get(choice)`; no target ends the
      story, otherwise the target node becomes current, and it is a node of the story. */
  function Step(nodes: map<string, ChoiceNode>, cur: ChoiceNode, choice: string): (r: Option<ChoiceNode>)
    requires StoryOk(nodes) && InStory(nodes, Some(cur))
    ensures InStory(nodes, r)
    ensures r.None? <==> (choice !in cur.next || cur.next[choice].None?)
    ensures r.Some? ==> choice in cur.next && r.value == nodes[cur.next[choice].value]
  {
    var target := if choice in cur.next then cur.next[choice] else None;
    if target.None? then None else Some(nodes[target.value])
  }

  /** The position reached by applying `make_choice` to each choice of `h` in turn. */
  function After(nodes: map<string, ChoiceNode>, cur: Option<ChoiceNode>, h: seq<Entry>): (r: Option<ChoiceNode>)
    requires StoryOk(nodes) && InStory(nodes, cur)
    ensures InStory(nodes, r)
    decreases |h|
  {
    if h == [] || cur.None? then cur
    else After(nodes, Step(nodes, cur.value, h[0].1), h[1..])
  }

  /** `h` is a history `make_choice` can have written from `cur`: every entry names the node
      that was current when it was taken, and the story had not ended. */
  ghost predicate Follows(nodes: map<string, ChoiceNode>, cur: Option<ChoiceNode>, h: seq<Entry>)
    requires StoryOk(nodes) && InStory(nodes, cur)
    decreases |h|
  {
    h == [] || (cur.Some? && cur.value.id == h[0].0 && Follows(nodes, Step(nodes, cur.value, h[0].1), h[1..]))
  }

  /** `restore_from_history` from position `cur`: the position and history after replaying `h`,
      stopping at the end of the story or at the first entry taken from another node. */
  function Replay(nodes: map<string, ChoiceNode>, cur: Option<ChoiceNode>, h: seq<Entry>): (Option<ChoiceNode>, seq<Entry>)
    requires StoryOk(nodes) && InStory(nodes, cur)
    decreases |h|
  {
    if h == [] || cur.None? || cur.value.id != h[0].0 then (cur, [])
    else
      var r := Replay(nodes, Step(nodes, cur.value, h[0].1), h[1..]);
      (r.0, [h[0]] + r.1)
  }

  /** Python's `s[:n]`, negative `n` counting from the end. */
  function PyPrefix<T>(s: seq<T>, n: int): (r: seq<T>)
    ensures |r| <= |s| && r == s[..|r|]
    ensures n >= 0 ==> |r| == if n < |s| then n else |s|
  {
    if n >= 0 then (if n < |s| then s[..n] else s)
    else if |s| + n > 0 then s[..|s| + n] else []
  }

  /** What `rollback_to(index)` computes from the history `h`. */
  function RollbackResult(nodes: map<string, ChoiceNode>, startId: string, h: seq<Entry>, index: int): (Option<ChoiceNode>, seq<Entry>)
    requires StoryOk(nodes) && startId in nodes
  {
    Replay(nodes, Some(nodes[startId]), PyPrefix(h, index + 1))
  }

  /** Replaying from position `i` of `h` when the entry there belongs to the current node:
      one step, then the replay from `i + 1`. */
  lemma ReplayCons(nodes: map<string, ChoiceNode>, cur: Option<ChoiceNode>, h: seq<Entry>, i: int)
    requires StoryOk(nodes) && InStory(nodes, cur)
    requires 0 <= i < |h| && cur.Some? && cur.value.id == h[i].0
    ensures var rest := Replay(nodes, Step(nodes, cur.value, h[i].1), h[i + 1..]);
      var r := Replay(nodes, cur, h[i..]);
      r.0 == rest.0 && h[..i] + r.1 == h[..i + 1] + rest.1
  {
    assert h[i..][1..] == h[i + 1..];
    assert h[..i + 1] == h[..i] + [h[i]];
  }

  /** Replay keeps a prefix of the history it is given, and it stops only where it must: at
      the end of the story or at an entry taken from a node other than the current one. */
  lemma {:induction false} ReplayKeepsPrefix(nodes: map<string, ChoiceNode>, cur: Option<ChoiceNode>, h: seq<Entry>)
    requires StoryOk(nodes) && InStory(nodes, cur)
    ensures var r := Replay(nodes, cur, h);
      |r.1| <= |h| && r.1 == h[..|r.1|] &&
      (|r.1| < |h| ==> r.0.None? || r.0.value.id != h[|r.1|].0)
    decreases |h|
  {
    if h == [] || cur.None? || cur.value.id != h[0].0 {
    } else {
      var next := Step(nodes, cur.value, h[0].1);
      ReplayKeepsPrefix(nodes, next, h[1..]);
      var r' := Replay(nodes, next, h[1..]);
      assert h[1..][..|r'.1|] == h[1..|r'.1| + 1];
      assert h == [h[0]] + h[1..];
    }
  }

  /** What replay keeps is itself a history `make_choice` could have written, and the position
      replay ends at is where those choices lead. */
  lemma {:induction false} ReplayFollows(nodes: map<string, ChoiceNode>, cur: Option<ChoiceNode>, h: seq<Entry>)
    requires StoryOk(nodes) && InStory(nodes, cur)
    ensures var r := Replay(nodes, cur, h);
      Follows(nodes, cur, r.1) && r.0 == After(nodes, cur, r.1)
    decreases |h|
  {
    if h == [] || cur.None? || cur.value.id != h[0].0 {
    } else {
      var next := Step(nodes, cur.value, h[0].1);
      ReplayFollows(nodes, next, h[1..]);
      var r' := Replay(nodes, next, h[1..]);
      assert ([h[0]] + r'.1)[1..] == r'.1;
    }
  }

  /** Replaying a game's own history reproduces that history and the position it led to. */
  lemma {:induction false} ReplayOwnHistory(nodes: map<string, ChoiceNode>, cur: Option<ChoiceNode>, h: seq<Entry>)
    requires StoryOk(nodes) && InStory(nodes, cur)
    requires Follows(nodes, cur, h)
    ensures Replay(nodes, cur, h) == (After(nodes, cur, h), h)
    decreases |h|
  {
    if h != [] {
      ReplayOwnHistory(nodes, Step(nodes, cur.value, h[0].1), h[1..]);
      assert h == [h[0]] + h[1..];
    }
  }

  /** One more `make_choice` from where a history leads extends that history. */
  lemma {:induction false} FollowsAppend(nodes: map<string, ChoiceNode>, cur: Option<ChoiceNode>, h: seq<Entry>, choice: string)
    requires StoryOk(nodes) && InStory(nodes, cur)
    requires Follows(nodes, cur, h) && After(nodes, cur, h).Some?
    ensures var at := After(nodes, cur, h).value;
      Follows(nodes, cur, h + [(at.id, choice)]) &&
      After(nodes, cur, h + [(at.id, choice)]) == Step(nodes, at, choice)
    decreases |h|
  {
    var at := After(nodes, cur, h).value;
    if h == [] {
      assert [(at.id, choice)][1..] == [];
    } else {
      FollowsAppend(nodes, Step(nodes, cur.value, h[0].1), h[1..], choice);
      assert (h + [(at.id, choice)])[1..] == h[1..] + [(at.id, choice)];
    }
  }

  /** Every prefix of a history `make_choice` wrote is one as well. */
  lemma {:induction false} FollowsPrefix(nodes: map<string, ChoiceNode>, cur: Option<ChoiceNode>, h: seq<Entry>, k: nat)
    requires StoryOk(nodes) && InStory(nodes, cur)
    requires Follows(nodes, cur, h) && k <= |h|
    ensures Follows(nodes, cur, h[..k])
    decreases |h|
  {
    if k > 0 {
      FollowsPrefix(nodes, Step(nodes, cur.value, h[0].1), h[1..], k - 1);
      assert h[..k][1..] == h[1..][..k - 1];
    }
  }

  /** On a history the game wrote itself, `rollback_to(index)` keeps exactly `history[:index+1]`
      and returns to the position those entries lead to. */
  lemma RollbackTruncates(nodes: map<string, ChoiceNode>, startId: string, h: seq<Entry>, index: int)
    requires StoryOk(nodes) && startId in nodes
    requires Follows(nodes, Some(nodes[startId]), h)
    ensures RollbackResult(nodes, startId, h, index) ==
      (After(nodes, Some(nodes[startId]), PyPrefix(h, index + 1)), PyPrefix(h, index + 1))
  {
    var p := PyPrefix(h, index + 1);
    FollowsPrefix(nodes, Some(nodes[startId]), h, |p|);
    ReplayOwnHistory(nodes, Some(nodes[startId]), p);
  }

  /** Rolling back to the same index twice gives the state rolling back once gives, whatever
      history one starts from. */
  lemma RollbackIdempotent(nodes: map<string, ChoiceNode>, startId: string, h: seq<Entry>, index: int)
    requires StoryOk(nodes) && startId in nodes && index >= 0
    ensures var once := RollbackResult(nodes, startId, h, index);
      RollbackResult(nodes, startId, once.1, index) == once
  {
    var start := Some(nodes[startId]);
    var p := PyPrefix(h, index + 1);
    var once := Replay(nodes, start, p);
    ReplayKeepsPrefix(nodes, start, p);
    ReplayFollows(nodes, start, p);
    assert PyPrefix(once.1, index + 1) == once.1;
    ReplayOwnHistory(nodes, start, once.1);
  }

  /** `GameState`: the story and start id are fixed; `current` and `history` change. */
  class GameState {
    const nodes: map<string, ChoiceNode>
    const startId: string
    var current: Option<ChoiceNode>
    var history: seq<Entry>

    ghost predicate Ready() {
      StoryOk(nodes) && startId in nodes
    }

    function StartNode(): Option<ChoiceNode>
      requires startId in nodes
    {
      Some(nodes[startId])
    }

    /** The history was written by `make_choice` from the start node, and `current` is where
        it leads. */
    ghost predicate Valid()
      reads this
    {
      Ready() && InStory(nodes, current) &&
      Follows(nodes, StartNode(), history) && current == After(nodes, StartNode(), history)
    }

    predicate IsFinished()
      reads this
    {
      current.None?
    }

    constructor (nodes: map<string, ChoiceNode>, startId: string)
      requires StoryOk(nodes) && startId in nodes
      ensures this.nodes == nodes && this.startId == startId
      ensures Valid() && current == Some(nodes[startId]) && history == []
    {
      this.nodes := nodes;
      this.startId := startId;
      current := None;
      history := [];
      new;
      Reset();
    }

    method Reset()
      requires Ready()
      modifies this
      ensures Valid()
      ensures current == Some(nodes[startId]) && history == []
    {
      current := Some(nodes[startId]);
      history := [];
    }

    /** `make_choice`: records `(current.id, choice)` after the earlier entries, then moves. */
    method MakeChoice(choice: string)
      requires Valid() && !IsFinished()
      modifies this
      ensures Valid()
      ensures history == old(history) + [(old(current).value.id, choice)]
      ensures current == Step(nodes, old(current).value, choice)
      ensures IsFinished() <==> (choice !in old(current).value.next || old(current).value.next[choice].None?)
    {
      FollowsAppend(nodes, StartNode(), history, choice);
      history := history + [(current.value.id, choice)];
      var target := if choice in current.value.next then current.value.next[choice] else None;
      if target.None? {
        current := None;
      } else {
        current := Some(nodes[target.value]);
      }
    }

    /** `restore_from_history(h)`: reset, then replay `h` until the story ends or an entry does
        not belong to the current node. The history kept is a prefix of `h`. */
    method RestoreFromHistory(h: seq<Entry>)
      requires Ready()
      modifies this
      ensures Valid()
      ensures (current, history) == Replay(nodes, StartNode(), h)
      ensures |history| <= |h| && history == h[..|history|]
    {
      ReplayKeepsPrefix(nodes, StartNode(), h);
      Reset();
      var i := 0;
      assert h[i..] == h && h[..i] == [];
      assert h[..i] + Replay(nodes, current, h[i..]).1 == Replay(nodes, current, h[i..]).1;
      while i < |h|
        invariant 0 <= i <= |h|
        invariant Valid()
        invariant history == h[..i]
        invariant var rest := Replay(nodes, current, h[i..]);
          Replay(nodes, StartNode(), h) == (rest.0, h[..i] + rest.1)
      {
        if current.None? || current.value.id != h[i].0 {
          assert Replay(nodes, current, h[i..]) == (current, []);
          break;
        }
        ReplayCons(nodes, current, h, i);
        MakeChoice(h[i].1);
        i := i + 1;
      }
      assert i == |h| ==> h[i..] == [];
    }

    /** `rollback_to(index)`: replay `history[:index+1]`. The history the game wrote itself is
        cut to exactly that slice. */
    method RollbackTo(index: int)
      requires Valid()
      modifies this
      ensures Valid()
      ensures (current, history) == RollbackResult(nodes, startId, old(history), index)
      ensures history == PyPrefix(old(history), index + 1)
      ensures current == After(nodes, StartNode(), history)
    {
      RollbackTruncates(nodes, startId, history, index);
      var newHistory := PyPrefix(history, index + 1);
      RestoreFromHistory(newHistory);
    }
  }
}
