/** The console text adventure (Project/scr/code1_linaV38.py): four rooms joined by named
    exits, items lying in rooms and carried in an inventory, characters to talk to, and a
    turn-based fight with the monster. The module globals become the fields of one object;
    the player's typed commands and the random escape roll become parameters. */
module Adventure {
  import opened Wrappers

  datatype Location = Location(name: string, description: string, exits: map<string, string>,
                               items: seq<string>, npcs: seq<string>)

  datatype Enemy = Enemy(health: int, attack: int, defense: int, exp: int)

  const PLAYER_HEALTH := 100
  const PLAYER_ATTACK := 10
  const PLAYER_DEFENSE := 5
  /** The extra defence "2. Защищаться" gives. */
  const DEFEND_BONUS := 5

  const ATTACK := "1"
  const DEFEND := "2"
  const FLEE := "3"

  const STARTING_ROOM := "starting_room"
  const CORRIDOR := "corridor"
  const TREASURE_ROOM := "treasure_room"
  const MONSTER_ROOM := "monster_room"

  const MONSTER := "чудовище"
  const SAGE := "старый мудрец"

  const LOCATIONS: map<string, Location> := map[
    STARTING_ROOM := Location("Начальная комната",
      "Вы в небольшой тускло освещённой комнате. Дверь на север ведёт в коридор.",
      map["север" := CORRIDOR], ["факел", "коробка спичек"], []),
    CORRIDOR := Location("Коридор", "Длинный коридор тянется на восток и запад.",
      map["восток" := TREASURE_ROOM, "запад" := MONSTER_ROOM, "юг" := STARTING_ROOM], [], [SAGE]),
    TREASURE_ROOM := Location("Сокровищница", "Комната полна золота и драгоценностей.",
      map["запад" := CORRIDOR], ["золотая монета", "драгоценный камень"], []),
    MONSTER_ROOM := Location("Логово чудовища", "Тёмная комната. Здесь живёт чудовище!",
      map["восток" := CORRIDOR], ["меч героя"], [MONSTER])
  ]

  const ENEMIES: map<string, Enemy> := map[
    MONSTER := Enemy(50, 8, 3, 20),
    "гоблин" := Enemy(30, 5, 1, 10),
    "скелет" := Enemy(40, 7, 2, 15)
  ]

  const DIALOGUES: map<string, seq<string>> := map[
    SAGE := ["Приветствую тебя, путник.", "На востоке — сокровища.", "Но на западе таится зло."]
  ]

  /** Every exit leads to a room of the map. */
  ghost predicate ExitsClosed(locations: map<string, Location>) {
    forall here, d :: here in locations && d in locations[here].exits ==> locations[here].exits[d] in locations
  }

  lemma WorldIsClosed()
    ensures ExitsClosed(LOCATIONS) && STARTING_ROOM in LOCATIONS
  {
    forall here, d | here in LOCATIONS && d in LOCATIONS[here].exits
      ensures LOCATIONS[here].exits[d] in LOCATIONS
    {
      assert here == STARTING_ROOM || here == CORRIDOR || here == TREASURE_ROOM || here == MONSTER_ROOM;
    }
  }

  /** `max(1, attack - defense)`: every hit lands for at least one point. */
  function Damage(attack: int, defense: int): (d: int)
    ensures d >= 1 && d >= attack - defense
    ensures d == 1 || d == attack - defense
  {
    if attack - defense > 1 then attack - defense else 1
  }

  /** The position of the first occurrence of `x`. */
  function IndexOf(s: seq<string>, x: string): (i: nat)
    requires x in s
    ensures i < |s| && s[i] == x && x !in s[..i]
  {
    if s[0] == x then 0
    else
      var j := IndexOf(s[1..], x);
      assert s[..j + 1] == [s[0]] + s[1..][..j];
      j + 1
  }

  /** `list.remove(x)`: the first occurrence goes, the rest keep their order. */
  function RemoveFirst(s: seq<string>, x: string): (r: seq<string>)
    requires x in s
    ensures |r| == |s| - 1
    ensures exists i :: 0 <= i < |s| && s[i] == x && x !in s[..i] && r == s[..i] + s[i + 1..]
    ensures multiset(r) + multiset{x} == multiset(s)
  {
    var i := IndexOf(s, x);
    assert s == s[..i] + [s[i]] + s[i + 1..];
    s[..i] + s[i + 1..]
  }

  /** The fight as the rounds it is made of. `player` and `enemyHp` are the health points at
      the top of a round; the result is the player's health when the fight ends and whether it
      was won. A round: attack, defend or try to flee; then, if the enemy still stands, it hits
      back, softened by the defence bonus of this round only. */
  function Fight(e: Enemy, player: int, enemyHp: int, actions: nat -> string, escapes: nat -> bool, k: nat): (res: (int, bool))
    ensures res.0 <= player
    ensures res.1 ==> res.0 > 0
    decreases (if player > 0 then player else 0) + (if enemyHp > 0 then 1 else 0)
  {
    if !(player > 0 && enemyHp > 0) then (player, player > 0)
    else if actions(k) == FLEE && escapes(k) then (player, false)
    else
      var hp := if actions(k) == ATTACK then enemyHp - Damage(PLAYER_ATTACK, e.defense) else enemyHp;
      var bonus := if actions(k) == DEFEND then DEFEND_BONUS else 0;
      if hp > 0 then Fight(e, player - Damage(e.attack, PLAYER_DEFENSE + bonus), hp, actions, escapes, k + 1)
      else Fight(e, player, hp, actions, escapes, k + 1)
  }

  /** Against the monster an attack takes 7 points, and its hit takes 3, or 1 after defending. */
  lemma MonsterRound()
    ensures Damage(PLAYER_ATTACK, ENEMIES[MONSTER].defense) == 7
    ensures Damage(ENEMIES[MONSTER].attack, PLAYER_DEFENSE) == 3
    ensures Damage(ENEMIES[MONSTER].attack, PLAYER_DEFENSE + DEFEND_BONUS) == 1
  {
  }

  /** Attacking every round wins exactly when the player outlasts the hits taken before the
      enemy falls: one hit for every full attack short of the last. */
  lemma {:induction false} AttackingOnly(e: Enemy, player: int, enemyHp: int, actions: nat -> string, escapes: nat -> bool, k: nat)
    requires player > 0 && enemyHp > 0
    requires forall j :: j >= k ==> actions(j) == ATTACK
    requires Damage(PLAYER_ATTACK, e.defense) == 7 && Damage(e.attack, PLAYER_DEFENSE) == 3
    ensures Fight(e, player, enemyHp, actions, escapes, k).1 <==> player > 3 * ((enemyHp - 1) / 7)
    decreases enemyHp
  {
    var hp := enemyHp - 7;
    if hp > 0 {
      var p := player - 3;
      if p > 0 {
        AttackingOnly(e, p, hp, actions, escapes, k + 1);
        assert (hp - 1) / 7 == (enemyHp - 1) / 7 - 1;
      } else {
        assert (enemyHp - 1) / 7 >= 1;
      }
    }
  }

  /** A player at full health who only attacks beats the monster. */
  lemma FullHealthBeatsMonster(actions: nat -> string, escapes: nat -> bool)
    requires forall j :: actions(j) == ATTACK
    ensures Fight(ENEMIES[MONSTER], PLAYER_HEALTH, ENEMIES[MONSTER].health, actions, escapes, 0).1
  {
    MonsterRound();
    AttackingOnly(ENEMIES[MONSTER], PLAYER_HEALTH, ENEMIES[MONSTER].health, actions, escapes, 0);
  }

  class World {
    var currentLocation: string
    var inventory: seq<string>
    var locations: map<string, Location>
    var playerHealth: int

    ghost predicate Valid()
      reads this
    {
      currentLocation in locations && ExitsClosed(locations)
    }

    /** The module's globals as the script starts. */
    constructor ()
      ensures Valid()
      ensures currentLocation == STARTING_ROOM && inventory == [] && locations == LOCATIONS
      ensures playerHealth == PLAYER_HEALTH
    {
      currentLocation := STARTING_ROOM;
      inventory := [];
      locations := LOCATIONS;
      playerHealth := PLAYER_HEALTH;
      WorldIsClosed();
    }

    /** `move(direction)`: through an exit of the room, or nowhere. */
    method Move(direction: string)
      requires Valid()
      modifies this`currentLocation
      ensures Valid()
      ensures var exits := locations[old(currentLocation)].exits;
        currentLocation == if direction in exits then exits[direction] else old(currentLocation)
    {
      var exits := locations[currentLocation].exits;
      if direction in exits {
        currentLocation := exits[direction];
      }
    }

    /** `take_item(item)`: the first such item in the room goes to the end of the inventory;
        an item not in the room changes nothing. */
    method TakeItem(item: string)
      requires Valid()
      modifies this`locations, this`inventory
      ensures Valid()
      ensures var loc := old(locations[currentLocation]);
        && (item in loc.items ==>
              locations == old(locations)[currentLocation := loc.(items := RemoveFirst(loc.items, item))] &&
              inventory == old(inventory) + [item])
        && (item !in loc.items ==> locations == old(locations) && inventory == old(inventory))
      ensures multiset(locations[currentLocation].items) + multiset(inventory) ==
              multiset(old(locations[currentLocation].items)) + multiset(old(inventory))
    {
      var loc := locations[currentLocation];
      if item in loc.items {
        locations := locations[currentLocation := loc.(items := RemoveFirst(loc.items, item))];
        inventory := inventory + [item];
      }
    }

    /** `battle(enemy_name)`: runs rounds while both stand; the player's health carries over
        to the rest of the game. */
    method Battle(enemyName: string, actions: nat -> string, escapes: nat -> bool) returns (won: bool)
      requires enemyName in ENEMIES
      modifies this`playerHealth
      ensures (playerHealth, won) == Fight(ENEMIES[enemyName], old(playerHealth), ENEMIES[enemyName].health, actions, escapes, 0)
    {
      var enemy := ENEMIES[enemyName];
      var enemyHealth := enemy.health;
      var defenseBonus := 0;
      var k: nat := 0;
      while playerHealth > 0 && enemyHealth > 0
        invariant enemyHealth > 0 ==> defenseBonus == 0
        invariant Fight(enemy, playerHealth, enemyHealth, actions, escapes, k) ==
                  Fight(enemy, old(playerHealth), enemy.health, actions, escapes, 0)
        decreases (if playerHealth > 0 then playerHealth else 0) + (if enemyHealth > 0 then 1 else 0)
      {
        var action := actions(k);
        if action == ATTACK {
          var damage := Damage(PLAYER_ATTACK, enemy.defense);
          enemyHealth := enemyHealth - damage;
        } else if action == DEFEND {
          defenseBonus := DEFEND_BONUS;
        } else if action == FLEE {
          if escapes(k) {
            return false;
          }
        }
        if enemyHealth > 0 {
          var defense := PLAYER_DEFENSE + defenseBonus;
          var enemyDamage := Damage(enemy.attack, defense);
          playerHealth := playerHealth - enemyDamage;
          defenseBonus := 0;
        }
        k := k + 1;
      }
      if playerHealth <= 0 {
        return false;
      }
      return true;
    }

    /** `talk_to_npc(npc)`: nobody of that name here changes nothing; the monster attacks, and
        leaves the room when beaten; anyone else says their lines, which are returned. */
    method TalkToNpc(npc: string, actions: nat -> string, escapes: nat -> bool) returns (lines: seq<string>)
      requires Valid()
      modifies this`locations, this`playerHealth
      ensures Valid()
      ensures var loc := old(locations[currentLocation]);
        && (npc !in loc.npcs ==> locations == old(locations) && playerHealth == old(playerHealth) && lines == [])
        && (npc in loc.npcs && npc != MONSTER ==>
              locations == old(locations) && playerHealth == old(playerHealth) &&
              lines == if npc in DIALOGUES then DIALOGUES[npc] else [])
        && (npc in loc.npcs && npc == MONSTER ==>
              var (health, won) := Fight(ENEMIES[MONSTER], old(playerHealth), ENEMIES[MONSTER].health, actions, escapes, 0);
              && playerHealth == health && lines == []
              && locations == if won then old(locations)[currentLocation := loc.(npcs := RemoveFirst(loc.npcs, MONSTER))]
                              else old(locations))
    {
      var loc := locations[currentLocation];
      if npc !in loc.npcs {
        return [];
      }
      if npc == MONSTER {
        var won := Battle(MONSTER, actions, escapes);
        if won {
          locations := locations[currentLocation := loc.(npcs := RemoveFirst(loc.npcs, MONSTER))];
        }
        return [];
      }
      lines := if npc in DIALOGUES then DIALOGUES[npc] else [];
    }
  }
}
