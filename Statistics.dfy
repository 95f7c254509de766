/** The choice ledger (final_code/quest_statistics.py): two SQLite tables, `players` and
    `choices`, both with AUTOINCREMENT ids. Here each table is a sequence of rows kept in id
    order, with the next id the table will hand out. */
module QuestStatistics {
  import opened Wrappers

  datatype PlayerRow = PlayerRow(id: int, name: string, createdAt: string)

  datatype ChoiceRow = ChoiceRow(id: int, playerId: int, sceneId: string, choiceText: string,
                                 nextScene: string, timestamp: string)

  predicate ChoiceIdsIncrease(rows: seq<ChoiceRow>) {
    forall i, j :: 0 <= i < j < |rows| ==> rows[i].id < rows[j].id
  }

  predicate PlayerIdsIncrease(rows: seq<PlayerRow>) {
    forall i, j :: 0 <= i < j < |rows| ==> rows[i].id < rows[j].id
  }

  /** Putting the first row in front of rows taken from the rest keeps the ids increasing. */
  lemma KeepsIncrease(rows: seq<ChoiceRow>, rest: seq<ChoiceRow>)
    requires rows != [] && ChoiceIdsIncrease(rows) ==> ChoiceIdsIncrease(rest) && forall x :: x in rest ==> x in rows[1..]
    ensures rows != [] && ChoiceIdsIncrease(rows) ==> ChoiceIdsIncrease([rows[0]] + rest)
  {
    if rows != [] && ChoiceIdsIncrease(rows) {
      var r := [rows[0]] + rest;
      forall i, j | 0 <= i < j < |r|
        ensures r[i].id < r[j].id
      {
        if i == 0 {
          assert r[j] in rows[1..];
          var k :| 0 <= k < |rows[1..]| && rows[1..][k] == r[j];
          assert rows[k + 1] == r[j];
        } else {
          assert r[i] == rest[i - 1] && r[j] == rest[j - 1];
        }
      }
    }
  }

  /** `SELECT * FROM choices WHERE player_id = ? ORDER BY id`: exactly the player's rows, in
      ascending id order when the table is. */
  function RowsOf(rows: seq<ChoiceRow>, playerId: int): (r: seq<ChoiceRow>)
    ensures forall x :: x in r <==> x in rows && x.playerId == playerId
    ensures ChoiceIdsIncrease(rows) ==> ChoiceIdsIncrease(r)
    ensures |r| <= |rows|
  {
    if rows == [] then []
    else
      var rest := RowsOf(rows[1..], playerId);
      assert forall x :: x in rows <==> x == rows[0] || x in rows[1..];
      if rows[0].playerId == playerId then
        KeepsIncrease(rows, rest);
        [rows[0]] + rest
      else rest
  }

  predicate Matches(x: ChoiceRow, playerId: int, sceneId: string) {
    x.playerId == playerId && x.sceneId == sceneId
  }

  /** The subquery `SELECT id FROM choices WHERE player_id = ? AND scene_id = ? ORDER BY id
      DESC LIMIT 1`: the largest id among the player's rows for the scene, NULL when there is
      no such row. */
  function LastSceneRowId(rows: seq<ChoiceRow>, playerId: int, sceneId: string): (r: Option<int>)
    ensures r.None? <==> forall x :: x in rows ==> !Matches(x, playerId, sceneId)
    ensures r.Some? ==> exists x :: x in rows && Matches(x, playerId, sceneId) && x.id == r.value
    ensures r.Some? ==> forall x :: x in rows && Matches(x, playerId, sceneId) ==> x.id <= r.value
  {
    if rows == [] then None
    else
      var rest := LastSceneRowId(rows[1..], playerId, sceneId);
      assert forall x :: x in rows <==> x == rows[0] || x in rows[1..];
      if !Matches(rows[0], playerId, sceneId) then rest
      else if rest.Some? && rest.value > rows[0].id then rest
      else Some(rows[0].id)
  }

  /** `DELETE FROM choices WHERE player_id = ? AND id > mark`, the order of the rows kept. */
  function DeleteAfter(rows: seq<ChoiceRow>, playerId: int, mark: int): (r: seq<ChoiceRow>)
    ensures forall x :: x in r <==> x in rows && !(x.playerId == playerId && x.id > mark)
    ensures ChoiceIdsIncrease(rows) ==> ChoiceIdsIncrease(r)
  {
    if rows == [] then []
    else
      var rest := DeleteAfter(rows[1..], playerId, mark);
      assert forall x :: x in rows <==> x == rows[0] || x in rows[1..];
      if rows[0].playerId == playerId && rows[0].id > mark then rest
      else
        KeepsIncrease(rows, rest);
        [rows[0]] + rest
  }

  /** `rollback_to_scene(player_id, scene_id)` on the rows: when the subquery is NULL the
      comparison `id > NULL` is never true and nothing is deleted. */
  function RollbackRows(rows: seq<ChoiceRow>, playerId: int, sceneId: string): seq<ChoiceRow> {
    match LastSceneRowId(rows, playerId, sceneId)
    case None => rows
    case Some(mark) => DeleteAfter(rows, playerId, mark)
  }

  /** Exactly the player's rows after the last row for the scene go; every other row stays,
      the other players' rows and the earlier visits to the scene included. */
  lemma RollbackDeletesExactly(rows: seq<ChoiceRow>, playerId: int, sceneId: string)
    ensures LastSceneRowId(rows, playerId, sceneId).None? ==> RollbackRows(rows, playerId, sceneId) == rows
    ensures LastSceneRowId(rows, playerId, sceneId).Some? ==>
      var mark := LastSceneRowId(rows, playerId, sceneId).value;
      forall x :: x in RollbackRows(rows, playerId, sceneId) <==>
        x in rows && !(x.playerId == playerId && x.id > mark)
    ensures forall x :: x in rows && x.playerId != playerId ==> x in RollbackRows(rows, playerId, sceneId)
    ensures forall x :: x in rows && Matches(x, playerId, sceneId) ==> x in RollbackRows(rows, playerId, sceneId)
  {
  }

  /** Nothing to delete when none of the player's rows lies after the mark. */
  lemma {:induction false} DeleteAfterNothing(rows: seq<ChoiceRow>, playerId: int, mark: int)
    requires forall x :: x in rows && x.playerId == playerId ==> x.id <= mark
    ensures DeleteAfter(rows, playerId, mark) == rows
  {
    if rows != [] {
      assert rows[0] in rows;
      assert forall x :: x in rows[1..] ==> x in rows;
      DeleteAfterNothing(rows[1..], playerId, mark);
    }
  }

  /** `rollback_to_scene` is idempotent: a second call with the same arguments deletes nothing. */
  lemma RollbackIdempotent(rows: seq<ChoiceRow>, playerId: int, sceneId: string)
    ensures var once := RollbackRows(rows, playerId, sceneId);
      RollbackRows(once, playerId, sceneId) == once
  {
    var last := LastSceneRowId(rows, playerId, sceneId);
    if last.Some? {
      var mark := last.value;
      var once := DeleteAfter(rows, playerId, mark);
      var x :| x in rows && Matches(x, playerId, sceneId) && x.id == mark;
      assert x in once;
      assert forall y :: y in once ==> y in rows;
      var again := LastSceneRowId(once, playerId, sceneId);
      assert again.Some?;
      var y :| y in once && Matches(y, playerId, sceneId) && y.id == again.value;
      assert again.value <= mark && mark <= again.value;
      DeleteAfterNothing(once, playerId, mark);
    }
  }

  /** When the table holds only this player's rows, in id order, and the last row for the scene
      is at position `k`, rolling back keeps exactly the first `k + 1` rows. (Visits at
      positions 2 and 7 of ten rows leave eight.) */
  lemma RollbackSinglePlayerKeepsPrefix(rows: seq<ChoiceRow>, playerId: int, sceneId: string, k: nat)
    requires ChoiceIdsIncrease(rows)
    requires forall i :: 0 <= i < |rows| ==> rows[i].playerId == playerId
    requires k < |rows| && rows[k].sceneId == sceneId
    requires forall i :: k < i < |rows| ==> rows[i].sceneId != sceneId
    ensures RollbackRows(rows, playerId, sceneId) == rows[..k + 1]
  {
    var last := LastSceneRowId(rows, playerId, sceneId);
    assert rows[k] in rows;
    var mark := last.value;
    var x :| x in rows && Matches(x, playerId, sceneId) && x.id == mark;
    assert mark == rows[k].id by {
      var i :| 0 <= i < |rows| && rows[i] == x;
      assert i <= k;
    }
    DeleteAfterKeepsPrefix(rows, playerId, k);
  }

  /** With ids increasing and one player, deleting after the id at position `k` keeps the
      first `k + 1` rows. */
  lemma {:induction false} DeleteAfterKeepsPrefix(rows: seq<ChoiceRow>, playerId: int, k: nat)
    requires ChoiceIdsIncrease(rows)
    requires forall i :: 0 <= i < |rows| ==> rows[i].playerId == playerId
    requires k < |rows|
    ensures DeleteAfter(rows, playerId, rows[k].id) == rows[..k + 1]
    decreases |rows|
  {
    var mark := rows[k].id;
    if k == 0 {
      DeleteAllAfter(rows[1..], playerId, mark);
      assert rows[..1] == [rows[0]];
    } else {
      DeleteAfterKeepsPrefix(rows[1..], playerId, k - 1);
      assert rows[1..][k - 1] == rows[k];
      assert rows[..k + 1] == [rows[0]] + rows[1..][..k];
    }
  }

  /** Rows of the player whose ids all exceed the mark are all deleted. */
  lemma {:induction false} DeleteAllAfter(rows: seq<ChoiceRow>, playerId: int, mark: int)
    requires forall i :: 0 <= i < |rows| ==> rows[i].playerId == playerId && rows[i].id > mark
    ensures DeleteAfter(rows, playerId, mark) == []
  {
    if rows != [] {
      DeleteAllAfter(rows[1..], playerId, mark);
    }
  }

  /** `UPDATE players SET name = ? WHERE id = ?`: the rows keep their order, ids and creation
      times; only the rows with that id get the new name. */
  function RenamePlayer(players: seq<PlayerRow>, playerId: int, name: string): (r: seq<PlayerRow>)
    ensures |r| == |players|
    ensures forall i :: 0 <= i < |r| ==> r[i].id == players[i].id && r[i].createdAt == players[i].createdAt
    ensures forall i :: 0 <= i < |r| ==> r[i].name == if players[i].id == playerId then name else players[i].name
  {
    seq(|players|, i requires 0 <= i < |players| =>
      if players[i].id == playerId then players[i].(name := name) else players[i])
  }

  /** Python's `str(n)` for an integer. */
  function IntToString(n: int): (s: string)
    ensures |s| > 0
    decreases if n < 0 then 1 - n else n
  {
    if n < 0 then "-" + IntToString(-n)
    else if n < 10 then [Digit(n)]
    else IntToString(n / 10) + [Digit(n % 10)]
  }

  function Digit(d: int): char
    requires 0 <= d < 10
  {
    "0123456789"[d]
  }

  /** `QuestStatistics`, the two tables and their AUTOINCREMENT counters. */
  class Ledger {
    var players: seq<PlayerRow>
    var choices: seq<ChoiceRow>
    var nextPlayerId: int
    var nextChoiceId: int

    /** Ids are positive, strictly increasing along each table, and below the next id. */
    ghost predicate Valid()
      reads this
    {
      1 <= nextPlayerId && 1 <= nextChoiceId &&
      PlayerIdsIncrease(players) && ChoiceIdsIncrease(choices) &&
      (forall i :: 0 <= i < |players| ==> 1 <= players[i].id < nextPlayerId) &&
      (forall i :: 0 <= i < |choices| ==> 1 <= choices[i].id < nextChoiceId)
    }

    /** A new database: `_create_tables` on an empty file. */
    constructor ()
      ensures Valid() && players == [] && choices == []
    {
      players := [];
      choices := [];
      nextPlayerId := 1;
      nextChoiceId := 1;
    }

    /** `create_player(name)`: a new row whose id exceeds every id in the table. */
    method CreatePlayer(name: string, now: string) returns (id: int)
      requires Valid()
      modifies this
      ensures Valid()
      ensures forall p :: p in old(players) ==> p.id < id
      ensures players == old(players) + [PlayerRow(id, name, now)]
      ensures choices == old(choices) && nextChoiceId == old(nextChoiceId)
    {
      id := nextPlayerId;
      players := players + [PlayerRow(id, name, now)];
      nextPlayerId := nextPlayerId + 1;
    }

    /** `update_player_name(player_id, name)`. */
    method UpdatePlayerName(playerId: int, name: string)
      requires Valid()
      modifies this`players
      ensures Valid()
      ensures players == RenamePlayer(old(players), playerId, name)
    {
      players := RenamePlayer(players, playerId, name);
    }

    /** `save_choice(...)`: one row at the end, with the given fields and an id above every id
        already in the table. */
    method SaveChoice(playerId: int, sceneId: string, choiceText: string, nextScene: string, now: string)
      requires Valid()
      modifies this
      ensures Valid()
      ensures forall x :: x in old(choices) ==> x.id < old(nextChoiceId)
      ensures choices == old(choices) + [ChoiceRow(old(nextChoiceId), playerId, sceneId, choiceText, nextScene, now)]
      ensures players == old(players) && nextPlayerId == old(nextPlayerId)
    {
      choices := choices + [ChoiceRow(nextChoiceId, playerId, sceneId, choiceText, nextScene, now)];
      nextChoiceId := nextChoiceId + 1;
    }

    /** `get_choices_history(player_id)`: exactly that player's rows, in ascending id order. */
    function GetChoicesHistory(playerId: int): (r: seq<ChoiceRow>)
      reads this
      requires Valid()
      ensures forall x :: x in r <==> x in choices && x.playerId == playerId
      ensures forall i, j :: 0 <= i < j < |r| ==> r[i].id < r[j].id
    {
      RowsOf(choices, playerId)
    }

    /** `rollback_to_scene(player_id, scene_id)`. */
    method RollbackToScene(playerId: int, sceneId: string)
      requires Valid()
      modifies this`choices
      ensures Valid()
      ensures choices == RollbackRows(old(choices), playerId, sceneId)
    {
      var last := LastSceneRowId(choices, playerId, sceneId);
      if last.Some? {
        choices := DeleteAfter(choices, playerId, last.value);
      }
    }

    /** `export_history_to_csv(player_id, filename)` without the file writing: no file (None)
        when the player has no rows; otherwise the given name, or one made of the player id
        and the export time. */
    function ExportHistoryToCsv(playerId: int, filename: Option<string>, stamp: string): (r: Option<string>)
      reads this
      requires Valid()
      ensures r.None? <==> forall x :: x in choices ==> x.playerId != playerId
      ensures r.Some? && filename.Some? ==> r == filename
    {
      var rows := GetChoicesHistory(playerId);
      if rows == [] then None
      else
        assert rows[0] in rows;
        if filename.Some? then filename
      else Some("../data/history_player_" + IntToString(playerId) + "_" + stamp + ".csv")
    }
  }
}
