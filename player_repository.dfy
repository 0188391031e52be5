/** `game/PlayerRepository.kt` over in-memory tables: the players table keyed
    by row id, and the skills and inventory tables of each player keyed by skill
    id and by slot. A flag stands for whether the database accepts transactions:
    when it does not, every operation takes the source's `catch` branch. */
module PlayerStore {
  import opened Nullable
  import opened Players
  import opened Sets

  /** Length of the `username` column of the players table (`varchar(50)`). */
  const USERNAME_MAX: int := 50

  /** A row of the players table (timestamps are not modelled). */
  datatype PlayerRow = PlayerRow(username: string, passwordHash: string, x: int, y: int, z: int, health: int)

  /** A row of the skills table, under its player and skill id. */
  datatype SkillRow = SkillRow(level: int, experience: real)

  /** A row of the inventory table, under its player and slot. */
  datatype InventoryRow = InventoryRow(itemId: int, amount: int)

  /** The rows of one player in a per-player table; no rows is an empty map. */
  function RowsOf<R>(table: map<int, map<int, R>>, playerId: int): map<int, R> {
    if playerId in table then table[playerId] else map[]
  }

  // ---------------------------------------------------------------------------
  // What saving and loading do to the rows of one player

  /** The skill rows `savePlayerSkills` writes: one per entry of the player's map,
      stored under the map key. */
  function StoredSkills(skills: map<int, Skill>): map<int, SkillRow> {
    map k | k in skills :: SkillRow(skills[k].level, skills[k].experience)
  }

  /** Upserting one more skill row extends the rows saved so far by that row. */
  lemma StoredSkillsStep(existing: map<int, SkillRow>, skills: map<int, Skill>, todo: set<int>, k: int)
    requires k in todo && todo <= skills.Keys
    ensures existing + StoredSkills(skills - (todo - {k}))
         == (existing + StoredSkills(skills - todo))[k := SkillRow(skills[k].level, skills[k].experience)]
  {
    assert skills - (todo - {k}) == (skills - todo)[k := skills[k]];
    assert StoredSkills(skills - (todo - {k})) == StoredSkills(skills - todo)[k := SkillRow(skills[k].level, skills[k].experience)];
  }

  /** The skill map `loadPlayerSkills` rebuilds from a player's rows. */
  function LoadedSkills(rows: map<int, SkillRow>): map<int, Skill> {
    map k | k in rows :: Skill(k, rows[k].level, rows[k].experience)
  }

  /** Every skill is stored under its own id (true of the skills the server creates). */
  ghost predicate KeyedById(skills: map<int, Skill>) {
    forall k :: k in skills ==> skills[k].id == k
  }

  /** Saving upserts every skill of the map and deletes nothing, so loading gives
      back the skills that were saved together with the rows already stored for
      other skill ids. */
  lemma SkillsRoundTrip(rows: map<int, SkillRow>, skills: map<int, Skill>)
    requires KeyedById(skills)
    ensures LoadedSkills(rows + StoredSkills(skills)) == LoadedSkills(rows) + skills
    ensures rows.Keys <= skills.Keys ==> LoadedSkills(rows + StoredSkills(skills)) == skills
  {
    var saved := rows + StoredSkills(skills);
    assert LoadedSkills(saved).Keys == (LoadedSkills(rows) + skills).Keys;
    forall k | k in skills ensures LoadedSkills(saved)[k] == skills[k] {
      assert saved[k] == SkillRow(skills[k].level, skills[k].experience);
    }
  }

  /** The rows `savePlayerInventory` leaves for a player whose inventory is
      `slots`: an occupied slot has its row, an empty slot none, and rows for
      slots outside the inventory stay as they were. */
  function SavedInventory(rows: map<int, InventoryRow>, slots: seq<Option<InventoryItem>>): (saved: map<int, InventoryRow>)
    ensures forall s :: s in rows && !(0 <= s < |slots|) ==> s in saved && saved[s] == rows[s]
    ensures forall s :: 0 <= s < |slots| ==> (s in saved <==> slots[s].Some?)
    ensures forall s :: 0 <= s < |slots| && slots[s].Some? ==>
              saved[s] == InventoryRow(slots[s].value.itemId, slots[s].value.amount)
    ensures forall s :: s in saved ==> s in rows || 0 <= s < |slots|
  {
    var occupied := set s | 0 <= s < |slots| && slots[s].Some?;
    var outside := set s | s in rows && !(0 <= s < |slots|);
    map s | s in occupied + outside ::
      if s in occupied then InventoryRow(slots[s].value.itemId, slots[s].value.amount) else rows[s]
  }

  /** The array `loadPlayerInventory` fills: every slot emptied, then each row
      whose slot is within the array placed there; other rows are ignored. */
  function LoadedInventory(rows: map<int, InventoryRow>, size: nat): (slots: seq<Option<InventoryItem>>)
    ensures |slots| == size
    ensures forall s :: 0 <= s < size ==> (slots[s].Some? <==> s in rows)
    ensures forall s :: 0 <= s < size && s in rows ==> slots[s] == Some(InventoryItem(rows[s].itemId, rows[s].amount))
  {
    seq(size, s requires 0 <= s < size => if s in rows then Some(InventoryItem(rows[s].itemId, rows[s].amount)) else None)
  }

  /** Loading the inventory rows that a save wrote gives back the saved array,
      whatever rows were there before. */
  lemma InventoryRoundTrip(rows: map<int, InventoryRow>, slots: seq<Option<InventoryItem>>)
    ensures LoadedInventory(SavedInventory(rows, slots), |slots|) == slots
  {
    var loaded := LoadedInventory(SavedInventory(rows, slots), |slots|);
    forall s | 0 <= s < |slots| ensures loaded[s] == slots[s] {
      if slots[s].Some? {
        assert slots[s] == Some(InventoryItem(slots[s].value.itemId, slots[s].value.amount));
      }
    }
  }

  /** Saving one more slot changes only that slot's row. */
  lemma SavedInventoryStep(rows: map<int, InventoryRow>, slots: seq<Option<InventoryItem>>, item: Option<InventoryItem>)
    ensures var s := |slots|;
            SavedInventory(rows, slots + [item])
            == if item.Some? then SavedInventory(rows, slots)[s := InventoryRow(item.value.itemId, item.value.amount)]
               else SavedInventory(rows, slots) - {s}
  {
    var s := |slots|;
    var a := SavedInventory(rows, slots + [item]);
    var b := if item.Some? then SavedInventory(rows, slots)[s := InventoryRow(item.value.itemId, item.value.amount)]
             else SavedInventory(rows, slots) - {s};
    assert forall t :: 0 <= t < |slots| ==> (slots + [item])[t] == slots[t];
    assert a.Keys == b.Keys;
  }

  /** The name a newly created row gets: the player's username, or `unnamed_` and a fresh UUID. */
  function NewRowName(username: Option<string>, uuid: string): string {
    username.GetOr("unnamed_" + uuid)
  }

  class PlayerRepository {
    /** `hashPassword`: SHA-256 rendered as hex, left uninterpreted. */
    const hash: string -> string
    /** Whether the database accepts transactions. */
    var available: bool
    var players: map<int, PlayerRow>
    var nextPlayerId: int
    var skillRows: map<int, map<int, SkillRow>>
    var inventoryRows: map<int, map<int, InventoryRow>>

    /** Row ids are positive and below the next serial value, usernames are
        unique (the table's unique index), and skill and inventory rows belong
        to existing players. */
    ghost predicate Valid()
      reads this
    {
      && nextPlayerId >= 1
      && (forall id :: id in players ==> 0 < id < nextPlayerId)
      && (forall a, b :: a in players && b in players && players[a].username == players[b].username ==> a == b)
      && skillRows.Keys <= players.Keys
      && inventoryRows.Keys <= players.Keys
    }

    constructor (hash: string -> string)
      ensures Valid() && this.hash == hash && available
      ensures players == map[] && skillRows == map[] && inventoryRows == map[]
    {
      this.hash := hash;
      available := true;
      players, nextPlayerId := map[], 1;
      skillRows, inventoryRows := map[], map[];
    }

    predicate UsernameTaken(username: string)
      reads this
    {
      exists id :: id in players && players[id].username == username
    }

    /** The row that authenticates `username` with `password`. */
    predicate Accepts(id: int, username: string, password: string)
      reads this
    {
      id in players && players[id].username == username && players[id].passwordHash == hash(password)
    }

    function SkillsOf(playerId: int): map<int, SkillRow>
      reads this
    {
      RowsOf(skillRows, playerId)
    }

    function InventoryOf(playerId: int): map<int, InventoryRow>
      reads this
    {
      RowsOf(inventoryRows, playerId)
    }

    /** Inserts a player with the hash of its password; the other columns take
        their defaults. Fails (null) if the username is taken or too long for
        its column, or the database is down. */
    method CreatePlayer(username: string, password: string) returns (id: Option<int>)
      requires Valid()
      modifies this`players, this`nextPlayerId
      ensures Valid()
      ensures id.Some? <==> available && |username| <= USERNAME_MAX && !old(UsernameTaken(username))
      ensures id.Some? ==> id.value !in old(players)
      ensures id.Some? ==> players == old(players)[id.value := PlayerRow(username, hash(password), START_X, START_Y, START_Z, DEFAULT_HEALTH)]
      ensures id.Some? ==> Accepts(id.value, username, password)
      ensures id.None? ==> players == old(players)
    {
      id := None;
      if available && |username| <= USERNAME_MAX && !UsernameTaken(username) {
        id := Some(nextPlayerId);
        players := players[nextPlayerId := PlayerRow(username, hash(password), START_X, START_Y, START_Z, DEFAULT_HEALTH)];
        nextPlayerId := nextPlayerId + 1;
      }
    }

    /** Some row with that username, or null (also when the database is down). */
    method FindPlayerByUsername(username: string) returns (id: Option<int>)
      ensures id.Some? <==> available && UsernameTaken(username)
      ensures id.Some? ==> id.value in players && players[id.value].username == username
    {
      id := None;
      if available {
        if r :| r in players && players[r].username == username {
          id := Some(r);
        }
      }
    }

    /** A row whose username is `username` and whose stored hash is the hash of
        `password`, or null. */
    method AuthenticatePlayer(username: string, password: string) returns (id: Option<int>)
      ensures id.Some? <==> available && exists r :: Accepts(r, username, password)
      ensures id.Some? ==> Accepts(id.value, username, password)
    {
      id := None;
      if available {
        if r :| r in players && Accepts(r, username, password) {
          id := Some(r);
        }
      }
    }

    /** With unique usernames, the row a player was created with is the only
        one that authenticates its username and password. */
    lemma OnlyCreatedRowAccepts(id: int, username: string, password: string)
      requires Valid()
      requires Accepts(id, username, password)
      ensures forall r :: Accepts(r, username, password) ==> r == id
    {
    }

    /** Upserts one row per entry of the player's skill map; deletes nothing. */
    method SavePlayerSkills(player: Player)
      requires Valid()
      requires player.id.Some? ==> player.id.value in players
      modifies this`skillRows
      ensures Valid()
      ensures player.id.None? ==> skillRows == old(skillRows)
      ensures player.id.Some? ==>
                skillRows == old(skillRows)[player.id.value := old(SkillsOf(player.id.value)) + StoredSkills(player.skills)]
    {
      if player.id.None? {
        return;
      }
      var playerId := player.id.value;
      var existing := SkillsOf(playerId);
      var rows := existing;
      skillRows := skillRows[playerId := rows];
      var todo := player.skills.Keys;
      assert player.skills - todo == map[];
      assert existing + StoredSkills(map[]) == existing;
      while todo != {}
        invariant todo <= player.skills.Keys
        invariant rows == existing + StoredSkills(player.skills - todo)
        invariant skillRows == old(skillRows)[playerId := rows]
        decreases todo
      {
        NonEmptyHasElement(todo);
        var skillId :| skillId in todo;
        var skill := player.skills[skillId];
        StoredSkillsStep(existing, player.skills, todo, skillId);
        rows := rows[skillId := SkillRow(skill.level, skill.experience)];
        skillRows := skillRows[playerId := rows];
        todo := todo - {skillId};
      }
      assert player.skills - {} == player.skills;
    }

    /** Clears the player's skill map and refills it from its rows. */
    method LoadPlayerSkills(player: Player)
      modifies player`skills
      ensures player.id.None? ==> player.skills == old(player.skills)
      ensures player.id.Some? ==> player.skills == LoadedSkills(SkillsOf(player.id.value))
    {
      if player.id.None? {
        return;
      }
      var playerId := player.id.value;
      var rows := SkillsOf(playerId);
      player.skills := map[];
      var todo := rows.Keys;
      assert rows - todo == map[];
      while todo != {}
        invariant todo <= rows.Keys
        invariant player.skills == LoadedSkills(rows - todo)
        decreases todo
      {
        NonEmptyHasElement(todo);
        var skillId :| skillId in todo;
        ghost var before := rows - todo;
        ghost var after := rows - (todo - {skillId});
        assert after == before[skillId := rows[skillId]];
        assert LoadedSkills(after) == LoadedSkills(before)[skillId := Skill(skillId, rows[skillId].level, rows[skillId].experience)];
        player.skills := player.skills[skillId := Skill(skillId, rows[skillId].level, rows[skillId].experience)];
        todo := todo - {skillId};
      }
      assert rows - {} == rows;
    }

    /** Walks the slots in order: an occupied slot updates or creates its row,
        an empty slot deletes any row it had. Rows for other slots are untouched. */
    method SavePlayerInventory(player: Player)
      requires Valid()
      requires player.id.Some? ==> player.id.value in players
      modifies this`inventoryRows
      ensures Valid()
      ensures player.id.None? ==> inventoryRows == old(inventoryRows)
      ensures player.id.Some? ==>
                inventoryRows == old(inventoryRows)[player.id.value := SavedInventory(old(InventoryOf(player.id.value)), player.inventory[..])]
    {
      if player.id.None? {
        return;
      }
      var playerId := player.id.value;
      var existing := InventoryOf(playerId);
      assert SavedInventory(existing, player.inventory[..0]) == existing;
      var rows := existing;
      inventoryRows := inventoryRows[playerId := rows];
      for slot := 0 to player.inventory.Length
        invariant rows == SavedInventory(existing, player.inventory[..slot])
        invariant inventoryRows == old(inventoryRows)[playerId := rows]
      {
        var item := player.inventory[slot];
        SavedInventoryStep(existing, player.inventory[..slot], item);
        assert player.inventory[..slot + 1] == player.inventory[..slot] + [item];
        if item.Some? {
          rows := rows[slot := InventoryRow(item.value.itemId, item.value.amount)];
        } else {
          rows := rows - {slot};
        }
        inventoryRows := inventoryRows[playerId := rows];
      }
      assert player.inventory[..player.inventory.Length] == player.inventory[..];
    }

    /** Empties every slot, then places each of the player's rows whose slot lies
        within the array. */
    method LoadPlayerInventory(player: Player)
      modifies player.inventory
      ensures player.id.None? ==> player.inventory[..] == old(player.inventory[..])
      ensures player.id.Some? ==> player.inventory[..] == LoadedInventory(InventoryOf(player.id.value), player.inventory.Length)
    {
      if player.id.None? {
        return;
      }
      var playerId := player.id.value;
      var n := player.inventory.Length;
      for i := 0 to n
        invariant forall s :: 0 <= s < i ==> player.inventory[s].None?
      {
        player.inventory[i] := None;
      }
      var rows := InventoryOf(playerId);
      var todo := rows.Keys;
      while todo != {}
        invariant todo <= rows.Keys
        invariant forall s :: 0 <= s < n ==>
                    player.inventory[s] == if s in rows && s !in todo then Some(InventoryItem(rows[s].itemId, rows[s].amount)) else None
        decreases todo
      {
        NonEmptyHasElement(todo);
        var slot :| slot in todo;
        if 0 <= slot < n {
          player.inventory[slot] := Some(InventoryItem(rows[slot].itemId, rows[slot].amount));
        }
        todo := todo - {slot};
      }
      assert player.inventory[..] == LoadedInventory(rows, n);
    }

    /** Finds the player's row, or creates one (named by the username or
        `unnamed_<uuid>`, with an empty password hash) when the player has no id
        or its id names no row; copies position and health into it, gives the
        player that row's id, and saves skills and inventory. Fails without
        changing anything when the database is down or the new row's name is
        taken or too long. */
    method SavePlayer(player: Player, uuid: string) returns (ok: bool)
      requires Valid()
      modifies this`players, this`nextPlayerId, this`skillRows, this`inventoryRows, player`id
      ensures Valid()
      ensures ok <==> (old(available) &&
                       ((old(player.id).Some? && old(player.id).value in old(players)) ||
                        (|NewRowName(player.username, uuid)| <= USERNAME_MAX &&
                         !old(UsernameTaken(NewRowName(player.username, uuid))))))
      ensures !ok ==> (players == old(players) && skillRows == old(skillRows) &&
                       inventoryRows == old(inventoryRows) && player.id == old(player.id))
      ensures ok ==> player.id.Some? && player.id.value in players
      ensures ok && old(player.id).Some? && old(player.id).value in old(players) ==>
                player.id == old(player.id) &&
                players == old(players)[player.id.value := old(players)[player.id.value].(x := player.x, y := player.y, z := player.z, health := player.health)]
      ensures ok && !(old(player.id).Some? && old(player.id).value in old(players)) ==>
                player.id.value !in old(players) &&
                players == old(players)[player.id.value := PlayerRow(NewRowName(player.username, uuid), "", player.x, player.y, player.z, player.health)]
      ensures ok ==> skillRows == old(skillRows)[player.id.value := RowsOf(old(skillRows), player.id.value) + StoredSkills(player.skills)]
      ensures ok ==> inventoryRows == old(inventoryRows)[player.id.value := SavedInventory(RowsOf(old(inventoryRows), player.id.value), player.inventory[..])]
    {
      ok := false;
      if !available {
        return;
      }
      var playerId: int;
      if player.id.Some? && player.id.value in players {
        playerId := player.id.value;
      } else {
        var name := NewRowName(player.username, uuid);
        if |name| > USERNAME_MAX || UsernameTaken(name) {
          return;
        }
        playerId := nextPlayerId;
        players := players[playerId := PlayerRow(name, "", START_X, START_Y, START_Z, DEFAULT_HEALTH)];
        nextPlayerId := nextPlayerId + 1;
      }
      players := players[playerId := players[playerId].(x := player.x, y := player.y, z := player.z, health := player.health)];
      player.id := Some(playerId);
      SavePlayerSkills(player);
      SavePlayerInventory(player);
      ok := true;
    }

    /** `p` carries what row `id` and its child rows describe: the id, the
        username, position and health of the row, the skills of its skill rows
        and an inventory of `inventorySize` slots filled from its inventory rows. */
    ghost predicate Restores(p: Player, id: int, inventorySize: nat)
      reads this, p`id, p`username, p`x, p`y, p`z, p`health, p`skills, p.inventory
    {
      && id in players
      && p.id == Some(id) && p.username == Some(players[id].username)
      && p.x == players[id].x && p.y == players[id].y && p.z == players[id].z
      && p.health == players[id].health
      && p.skills == LoadedSkills(SkillsOf(id))
      && p.inventory.Length == inventorySize
      && p.inventory[..] == LoadedInventory(InventoryOf(id), inventorySize)
    }

    /** Rebuilds a player from its row: a fresh player with session id
        `db_<uuid>` and no connection, carrying the row's id, username, position
        and health, and the skills and inventory its rows describe. Null when
        there is no such row or the database is down. */
    method LoadPlayer(id: int, inventorySize: nat, uuid: string, ghost trace: Trace) returns (player: Player?)
      ensures player == null <==> !available || id !in players
      ensures player != null ==>
                fresh(player) && fresh(player.inventory) &&
                player.sessionId == "db_" + uuid && player.session.None? && !player.needsPositionUpdate &&
                player.trace == trace && Restores(player, id, inventorySize)
    {
      player := null;
      if !available || id !in players {
        return;
      }
      var row := players[id];
      var p := new Player("db_" + uuid, None, inventorySize, trace);
      p.id := Some(id);
      p.username := Some(row.username);
      p.x, p.y, p.z := row.x, row.y, row.z;
      p.health := row.health;
      LoadPlayerSkills(p);
      LoadPlayerInventory(p);
      player := p;
    }

    /** Saving a player and loading it back by its id reproduces its position,
        health, username and inventory; the skills come back as saved together
        with any rows of other skill ids that were already stored. */
    method SaveThenLoad(player: Player, uuid: string, loadUuid: string) returns (ok: bool, loaded: Player?)
      requires Valid()
      modifies this`players, this`nextPlayerId, this`skillRows, this`inventoryRows, player`id
      ensures Valid()
      ensures ok ==> player.id.Some? && loaded != null && loaded.id == player.id
      ensures ok ==> loaded.x == player.x && loaded.y == player.y && loaded.z == player.z && loaded.health == player.health
      ensures ok && player.username.Some? && old(player.id).None? ==> loaded.username == player.username
      ensures ok ==> loaded.inventory[..] == player.inventory[..]
      ensures ok && KeyedById(player.skills) ==>
                loaded.skills == LoadedSkills(RowsOf(old(skillRows), player.id.value)) + player.skills
    {
      loaded := null;
      ok := SavePlayer(player, uuid);
      if ok {
        var id := player.id.value;
        loaded := LoadPlayer(id, player.inventory.Length, loadUuid, player.trace);
        InventoryRoundTrip(RowsOf(old(inventoryRows), id), player.inventory[..]);
        if KeyedById(player.skills) {
          SkillsRoundTrip(RowsOf(old(skillRows), id), player.skills);
        }
      }
    }
  }
}
