/** The connection layer of `Main.kt`: the text commands a client sends over its
    WebSocket (`LOGIN:`, `REGISTER:`, `LOGOUT`, and gameplay lines handed to the
    player), the exact reply lines, and the bookkeeping when a connection opens
    and closes. Replies are returned as the sequence of lines written to the
    client, in order. */
module Server {
  import opened Nullable
  import opened Text
  import opened Players
  import opened Engine
  import opened PlayerStore

  // ---------------------------------------------------------------------------
  // Replies

  const ALREADY_LOGGED_IN: string := "LOGIN_FAILED:Already logged in"
  const LOAD_FAILED: string := "LOGIN_FAILED:Could not load player data"
  const INVALID_CREDENTIALS: string := "LOGIN_FAILED:Invalid username or password"
  const BAD_USERNAME_LENGTH: string := "REGISTER_FAILED:Username must be 3-12 characters"
  const BAD_PASSWORD_LENGTH: string := "REGISTER_FAILED:Password must be at least 5 characters"
  const USERNAME_EXISTS: string := "REGISTER_FAILED:Username already exists"
  const REGISTRATION_FAILED: string := "REGISTER_FAILED:Registration failed"
  const LOGOUT_SUCCESS: string := "LOGOUT_SUCCESS"

  /** `CONNECTED:<session id>`, the first line of every connection. */
  function Connected(sessionId: string): string {
    "CONNECTED:" + sessionId
  }

  function LoginSuccess(id: int, username: string): string {
    "LOGIN_SUCCESS:" + IntToString(id) + ":" + username
  }

  function RegisterSuccess(id: int, username: string): string {
    "REGISTER_SUCCESS:" + IntToString(id) + ":" + username
  }

  /** A success reply splits on `:` into its tag, the row id and the username,
      and the id field reads back as the id. */
  lemma SuccessReplyFields(id: int, username: string)
    requires IsInt32(id) && ':' !in username
    ensures Split(LoginSuccess(id, username), ':') == ["LOGIN_SUCCESS", IntToString(id), username]
    ensures Split(RegisterSuccess(id, username), ':') == ["REGISTER_SUCCESS", IntToString(id), username]
    ensures ParseInt(IntToString(id)) == Some(id)
  {
    var f := IntToString(id);
    assert LoginSuccess(id, username) == "LOGIN_SUCCESS" + [':'] + (f + [':'] + username);
    assert RegisterSuccess(id, username) == "REGISTER_SUCCESS" + [':'] + (f + [':'] + username);
    SplitAtFirstSeparator("LOGIN_SUCCESS", ':', f + [':'] + username);
    SplitAtFirstSeparator("REGISTER_SUCCESS", ':', f + [':'] + username);
    SplitAtFirstSeparator(f, ':', username);
    SplitWithoutSeparator(username, ':');
    ParseIntToString(id);
  }

  /** What a direct write of `line` on the connection puts on the wire: the
      line while the connection is open. On a closed connection the write
      throws, so nothing is written and the rest of the frame is skipped. */
  function Written(line: string, live: bool): seq<string> {
    if live then [line] else []
  }

  // ---------------------------------------------------------------------------
  // Requests

  /** What a text frame asks for. `Ignored` is a `LOGIN:` or `REGISTER:` line
      with fewer than two `:`-separated parts, to which nothing happens. */
  datatype Request =
    | Login(username: string, password: string)
    | Register(username: string, password: string)
    | Logout
    | Gameplay(message: string)
    | Ignored

  /** The first two `:`-separated parts of the text after a command prefix. */
  function Credentials(rest: string): (c: Option<(string, string)>)
    ensures c.Some? ==> ':' !in c.value.0 && ':' !in c.value.1
  {
    var parts := Split(rest, ':');
    if |parts| >= 2 then Some((parts[0], parts[1])) else None
  }

  /** The username and password are exactly the first two parts; any further
      parts are ignored. */
  lemma CredentialsFields(username: string, password: string, rest: string)
    requires ':' !in username && ':' !in password
    requires rest == [] || rest[0] == ':'
    ensures Credentials(username + ":" + password + rest) == Some((username, password))
  {
    var s := username + ":" + password + rest;
    assert s == username + [':'] + (password + rest);
    SplitAtFirstSeparator(username, ':', password + rest);
    if rest == [] {
      assert password + rest == password;
      SplitWithoutSeparator(password, ':');
    } else {
      assert password + rest == password + [':'] + rest[1..];
      SplitAtFirstSeparator(password, ':', rest[1..]);
    }
  }

  /** Text without a `:` is a single part, too few for credentials. */
  lemma CredentialsNeedTwoParts(s: string)
    requires ':' !in s
    ensures Credentials(s).None?
  {
    SplitWithoutSeparator(s, ':');
  }

  /** No message starts with two of the command prefixes. */
  lemma CommandPrefixesDisjoint(m: string)
    ensures !("LOGIN:" <= m && "REGISTER:" <= m)
    ensures !("LOGIN:" <= m && "LOGOUT" <= m)
    ensures !("REGISTER:" <= m && "LOGOUT" <= m)
  {
    if "LOGIN:" <= m {
      assert m[0] == 'L' && m[3] == 'I';
    }
    if "REGISTER:" <= m {
      assert m[0] == 'R';
    }
  }

  /** The `when` of `handleMessage`: the first matching prefix among `LOGIN:`,
      `REGISTER:` and `LOGOUT` decides, and anything else is gameplay. */
  function ParseRequest(message: string): (r: Request)
    ensures r.Login? || (r.Ignored? && "LOGIN:" <= message) <==> "LOGIN:" <= message
    ensures r.Register? || (r.Ignored? && "REGISTER:" <= message) <==> "REGISTER:" <= message
    ensures r.Logout? <==> "LOGOUT" <= message
    ensures r.Gameplay? <==> !("LOGIN:" <= message) && !("REGISTER:" <= message) && !("LOGOUT" <= message)
    ensures r.Gameplay? ==> r.message == message
    ensures r.Login? ==> Credentials(message[6..]) == Some((r.username, r.password))
    ensures r.Register? ==> Credentials(message[9..]) == Some((r.username, r.password))
  {
    CommandPrefixesDisjoint(message);
    if "LOGIN:" <= message then
      match Credentials(message[6..])
      case Some((u, p)) => Login(u, p)
      case None => Ignored
    else if "REGISTER:" <= message then
      match Credentials(message[9..])
      case Some((u, p)) => Register(u, p)
      case None => Ignored
    else if "LOGOUT" <= message then Logout
    else Gameplay(message)
  }

  /** `LOGIN:u:p`, with or without further parts, is a login as u with password p. */
  lemma LoginRequest(username: string, password: string, rest: string)
    requires ':' !in username && ':' !in password
    requires rest == [] || rest[0] == ':'
    ensures ParseRequest("LOGIN:" + username + ":" + password + rest) == Login(username, password)
  {
    var m := "LOGIN:" + username + ":" + password + rest;
    assert m[6..] == username + ":" + password + rest;
    CredentialsFields(username, password, rest);
  }

  /** `REGISTER:u:p`, with or without further parts, registers u with password p. */
  lemma RegisterRequest(username: string, password: string, rest: string)
    requires ':' !in username && ':' !in password
    requires rest == [] || rest[0] == ':'
    ensures ParseRequest("REGISTER:" + username + ":" + password + rest) == Register(username, password)
  {
    var m := "REGISTER:" + username + ":" + password + rest;
    assert m[9..] == username + ":" + password + rest;
    assert !("LOGIN:" <= m) by {
      assert m[1] == 'E';
    }
    CredentialsFields(username, password, rest);
  }

  /** A command with a single part is ignored. */
  lemma SinglePartIgnored(s: string)
    requires ':' !in s
    ensures ParseRequest("LOGIN:" + s) == Ignored
    ensures ParseRequest("REGISTER:" + s) == Ignored
  {
    var m := "LOGIN:" + s;
    var n := "REGISTER:" + s;
    assert m[6..] == s;
    assert n[9..] == s;
    assert !("LOGIN:" <= n) by {
      assert n[1] == 'E';
    }
    CredentialsNeedTwoParts(s);
  }

  // ---------------------------------------------------------------------------
  // Registration rules

  /** The first registration rule a username and password break, in the order
      they are checked, or `None` when both are acceptable. Lengths are
      Kotlin's, in UTF-16 code units. */
  function RegistrationError(username: string, password: string): (e: Option<string>)
    ensures e.None? <==> 3 <= Utf16Length(username) <= 12 && Utf16Length(password) >= 5
    ensures !(3 <= Utf16Length(username) <= 12) ==> e == Some(BAD_USERNAME_LENGTH)
    ensures 3 <= Utf16Length(username) <= 12 && Utf16Length(password) < 5 ==> e == Some(BAD_PASSWORD_LENGTH)
  {
    var nameLength, passwordLength := Utf16Length(username), Utf16Length(password);
    if nameLength < 3 || nameLength > 12 then Some(BAD_USERNAME_LENGTH)
    else if passwordLength < 5 then Some(BAD_PASSWORD_LENGTH)
    else None
  }

  /** A username of six characters outside the Basic Multilingual Plane is
      twelve code units long, the most allowed; seven such characters are too
      many, although seven characters fit the rule when counted one by one. */
  lemma SupplementaryCharactersCountTwice(c: char)
    requires (c as int) >= 0x1_0000
    ensures RegistrationError([c, c, c, c, c, c], "secret").None?
    ensures RegistrationError([c, c, c, c, c, c, c], "secret") == Some(BAD_USERNAME_LENGTH)
  {
    var six := [c, c, c, c, c, c];
    assert forall i :: 0 <= i < |six| ==> (six[i] as int) >= 0x1_0000;
    var seven := [c, c, c, c, c, c, c];
    assert forall i :: 0 <= i < |seven| ==> (seven[i] as int) >= 0x1_0000;
    var secret := "secret";
    assert forall i :: 0 <= i < |secret| ==> (secret[i] as int) < 0x1_0000;
  }

  /** Number of skills a registered player starts with (ids 0 to 22). */
  const SKILL_COUNT: int := 23
  /** A new skill's level and experience, the table's column defaults. */
  const DEFAULT_SKILL_LEVEL: int := 1
  const DEFAULT_SKILL_EXPERIENCE: real := 0.0

  /** The default skills with ids below `n`. */
  function DefaultSkills(n: int): (skills: map<int, Skill>)
    ensures forall k :: k in skills <==> 0 <= k < n
    ensures forall k :: k in skills ==> skills[k] == Skill(k, DEFAULT_SKILL_LEVEL, DEFAULT_SKILL_EXPERIENCE)
  {
    map k | 0 <= k < n :: Skill(k, DEFAULT_SKILL_LEVEL, DEFAULT_SKILL_EXPERIENCE)
  }

  // ---------------------------------------------------------------------------
  // Handlers

  /** `LOGIN:`: refused if a registered player already has the username (the
      database is not consulted); otherwise the credentials are checked, the
      account is loaded into a fresh player bound to this connection's session
      id and handle, that player replaces the connection's entry in the
      registry, the success line is sent and the position is pushed at once.
      When the connection is closed the first write throws: the replacement
      has happened, but nothing is written and the position is not pushed. */
  method HandleLogin(username: string, password: string, player: Player, engine: GameEngine,
                     repo: PlayerRepository, closed: set<nat>, uuid: string, inventorySize: nat)
    returns (replies: seq<string>)
    requires engine.Valid() && repo.Valid()
    modifies engine`players, engine.trace`events
    ensures engine.Valid()
    ensures old(engine.LoggedIn(username)) ==>
              replies == Written(ALREADY_LOGGED_IN, player.CanDeliver(closed)) && engine.players == old(engine.players) &&
              engine.trace.events == old(engine.trace.events)
    ensures !old(engine.LoggedIn(username)) && !(repo.available && exists r :: repo.Accepts(r, username, password)) ==>
              replies == Written(INVALID_CREDENTIALS, player.CanDeliver(closed)) && engine.players == old(engine.players) &&
              engine.trace.events == old(engine.trace.events)
    ensures !old(engine.LoggedIn(username)) && repo.available && (exists r :: repo.Accepts(r, username, password)) ==>
              player.sessionId in engine.players &&
              var q := engine.players[player.sessionId];
              && fresh(q) && q.id.Some? && repo.Accepts(q.id.value, username, password)
              && engine.players == old(engine.players)[player.sessionId := q]
              && q.sessionId == player.sessionId && q.session == player.session
              && repo.Restores(q, q.id.value, inventorySize)
              && !q.needsPositionUpdate
              && engine.trace.events ==
                 old(engine.trace.events) + (if player.CanDeliver(closed) then [LoopEvent(player.sessionId, SendUpdatesCalled)] else [])
              && replies == if player.CanDeliver(closed) then [LoginSuccess(q.id.value, username), PositionLine(q.x, q.y, q.z)] else []
  {
    var live := player.CanDeliver(closed);
    var existing := engine.GetPlayerByUsername(username);
    if existing != null {
      replies := Written(ALREADY_LOGGED_IN, live);
    } else {
      var entity := repo.AuthenticatePlayer(username, password);
      if entity.None? {
        replies := Written(INVALID_CREDENTIALS, live);
      } else {
        var dbPlayer := repo.LoadPlayer(entity.value, inventorySize, uuid, engine.trace);
        assert dbPlayer != null;
        if dbPlayer == null {
          replies := Written(LOAD_FAILED, live);
        } else {
          replies := Admit(player, dbPlayer, engine, closed, LoginSuccess(entity.value, username));
          assert repo.Accepts(entity.value, username, password);
        }
      }
    }
  }

  /** `REGISTER:`: the length rules first, then the username must be new;
      then the account is created, the connection's player takes its id and
      username and gets the default skills, is saved, the success line is sent
      and the position is pushed. On a closed connection every reply is lost
      to the throwing write, and a registration stops after the save. */
  method HandleRegister(username: string, password: string, player: Player, engine: GameEngine,
                        repo: PlayerRepository, closed: set<nat>, uuid: string)
    returns (replies: seq<string>)
    requires engine.Valid() && repo.Valid()
    modifies player`id, player`username, player`skills, player`needsPositionUpdate, player.trace`events
    modifies repo`players, repo`nextPlayerId, repo`skillRows, repo`inventoryRows
    ensures engine.Valid() && repo.Valid()
    ensures RegistrationError(username, password).Some? ==>
              replies == Written(RegistrationError(username, password).value, player.CanDeliver(closed)) &&
              AccountUnchanged(player, repo) && LoopStateUnchanged(player)
    ensures RegistrationError(username, password).None? && repo.available && old(repo.UsernameTaken(username)) ==>
              replies == Written(USERNAME_EXISTS, player.CanDeliver(closed)) && AccountUnchanged(player, repo) &&
              LoopStateUnchanged(player)
    ensures RegistrationError(username, password).None? && !repo.available ==>
              replies == Written(REGISTRATION_FAILED, player.CanDeliver(closed)) && AccountUnchanged(player, repo) &&
              LoopStateUnchanged(player)
    ensures RegistrationError(username, password).None? && repo.available && !old(repo.UsernameTaken(username)) ==>
              player.id.Some? &&
              var id := player.id.value;
              && id !in old(repo.players)
              && player.username == Some(username)
              && player.skills == old(player.skills) + DefaultSkills(SKILL_COUNT)
              && repo.players == old(repo.players)[id := PlayerRow(username, repo.hash(password), player.x, player.y, player.z, player.health)]
              && repo.Accepts(id, username, password)
              && repo.skillRows == old(repo.skillRows)[id := StoredSkills(player.skills)]
              && repo.inventoryRows == old(repo.inventoryRows)[id := SavedInventory(map[], player.inventory[..])]
              && Delivered(player, closed, RegisterSuccess(id, username), replies)
  {
    var live := player.CanDeliver(closed);
    var error := RegistrationError(username, password);
    if error.Some? {
      replies := Written(error.value, live);
    } else {
      replies := CreateAccount(username, password, player, repo, closed, uuid);
    }
  }

  /** The database half of `REGISTER:` for credentials that pass the length
      rules: a taken username is refused, a failed insert is reported, and
      otherwise the connection's player is enrolled under the new row. */
  method CreateAccount(username: string, password: string, player: Player, repo: PlayerRepository,
                       closed: set<nat>, uuid: string)
    returns (replies: seq<string>)
    requires repo.Valid()
    modifies player`id, player`username, player`skills, player`needsPositionUpdate, player.trace`events
    modifies repo`players, repo`nextPlayerId, repo`skillRows, repo`inventoryRows
    ensures repo.Valid()
    ensures repo.available && old(repo.UsernameTaken(username)) ==>
              replies == Written(USERNAME_EXISTS, player.CanDeliver(closed)) && AccountUnchanged(player, repo) &&
              LoopStateUnchanged(player)
    ensures !(repo.available && old(repo.UsernameTaken(username))) && !(repo.available && |username| <= USERNAME_MAX) ==>
              replies == Written(REGISTRATION_FAILED, player.CanDeliver(closed)) && AccountUnchanged(player, repo) &&
              LoopStateUnchanged(player)
    ensures repo.available && |username| <= USERNAME_MAX && !old(repo.UsernameTaken(username)) ==>
              player.id.Some? &&
              var id := player.id.value;
              && id !in old(repo.players)
              && player.username == Some(username)
              && player.skills == old(player.skills) + DefaultSkills(SKILL_COUNT)
              && repo.players == old(repo.players)[id := PlayerRow(username, repo.hash(password), player.x, player.y, player.z, player.health)]
              && repo.Accepts(id, username, password)
              && repo.skillRows == old(repo.skillRows)[id := StoredSkills(player.skills)]
              && repo.inventoryRows == old(repo.inventoryRows)[id := SavedInventory(map[], player.inventory[..])]
              && Delivered(player, closed, RegisterSuccess(id, username), replies)
  {
    var live := player.CanDeliver(closed);
    var existing := repo.FindPlayerByUsername(username);
    if existing.Some? {
      replies := Written(USERNAME_EXISTS, live);
    } else {
      var entity := repo.CreatePlayer(username, password);
      if entity.None? {
        replies := Written(REGISTRATION_FAILED, live);
      } else {
        replies := Enrol(entity.value, username, password, player, repo, closed, uuid);
      }
    }
  }

  /** The steps of a registration after the row is inserted: the player takes
      the new id and the username, gets the default skills, and is saved, and
      the success line and the position are sent; on a closed connection the
      success line's write throws and nothing after the save happens. */
  method Enrol(id: int, username: string, password: string, player: Player, repo: PlayerRepository,
               closed: set<nat>, uuid: string)
    returns (replies: seq<string>)
    requires repo.Valid() && repo.available
    requires repo.Accepts(id, username, password)
    requires id !in repo.skillRows && id !in repo.inventoryRows
    modifies player`id, player`username, player`skills, player`needsPositionUpdate, player.trace`events
    modifies repo`players, repo`nextPlayerId, repo`skillRows, repo`inventoryRows
    ensures repo.Valid()
    ensures player.id == Some(id) && player.username == Some(username)
    ensures player.skills == old(player.skills) + DefaultSkills(SKILL_COUNT)
    ensures repo.players == old(repo.players)[id := old(repo.players)[id].(x := player.x, y := player.y, z := player.z, health := player.health)]
    ensures repo.Accepts(id, username, password)
    ensures repo.skillRows == old(repo.skillRows)[id := StoredSkills(player.skills)]
    ensures repo.inventoryRows == old(repo.inventoryRows)[id := SavedInventory(map[], player.inventory[..])]
    ensures Delivered(player, closed, RegisterSuccess(id, username), replies)
  {
    player.id := Some(id);
    player.username := Some(username);
    GrantDefaultSkills(player);
    assert map[] + StoredSkills(player.skills) == StoredSkills(player.skills);
    var saved := repo.SavePlayer(player, uuid);
    replies := Announce(player, closed, RegisterSuccess(id, username));
  }

  /** The steps of a login once the account is loaded into `loaded`: it takes
      over the connection's session id and handle and then its entry in the
      registry, and the success line and the position are sent. */
  method Admit(player: Player, loaded: Player, engine: GameEngine, closed: set<nat>, success: string)
    returns (replies: seq<string>)
    requires engine.Valid() && loaded !in engine.players.Values && loaded.trace == engine.trace
    modifies engine`players, loaded`sessionId, loaded`session, loaded`needsPositionUpdate, engine.trace`events
    ensures engine.Valid()
    ensures loaded.sessionId == old(player.sessionId) && loaded.session == old(player.session)
    ensures engine.players == old(engine.players)[old(player.sessionId) := loaded]
    ensures Delivered(loaded, closed, success, replies)
  {
    loaded.AttachSession(player.sessionId, player.session);
    engine.ReplacePlayer(player, loaded);
    replies := Announce(loaded, closed, success);
  }

  /** A success line written directly to the player's connection, followed by
      an immediate position push: the flag is set and `sendUpdates` runs. On a
      closed connection the direct write throws and neither step happens. */
  method Announce(player: Player, closed: set<nat>, line: string) returns (replies: seq<string>)
    modifies player`needsPositionUpdate, player.trace`events
    ensures Delivered(player, closed, line, replies)
  {
    if !player.CanDeliver(closed) {
      replies := [];
      return;
    }
    replies := [line];
    player.needsPositionUpdate := true;
    var sent := player.SendUpdates(closed);
    if sent.Some? {
      replies := replies + [sent.value];
    }
  }

  /** The outcome of writing `line` and then pushing the position to the
      connection's own player: on an open connection both lines go out, the
      flag ends clear and one `sendUpdates` call is logged; on a closed one the
      first write throws, so nothing goes out and the flag and log are as before. */
  twostate predicate Delivered(player: Player, closed: set<nat>, line: string, replies: seq<string>)
    reads player, player.trace
  {
    if player.CanDeliver(closed) then
      && replies == [line, PositionLine(player.x, player.y, player.z)]
      && !player.needsPositionUpdate
      && player.trace.events == old(player.trace.events) + [LoopEvent(player.sessionId, SendUpdatesCalled)]
    else
      replies == [] && LoopStateUnchanged(player)
  }

  /** The game loop's view of the player, its flag and the call log it writes to, has not changed. */
  twostate predicate LoopStateUnchanged(player: Player)
    reads player, player.trace
  {
    player.needsPositionUpdate == old(player.needsPositionUpdate) && player.trace.events == old(player.trace.events)
  }

  /** Neither the player's account fields nor the stored tables have changed. */
  twostate predicate AccountUnchanged(player: Player, repo: PlayerRepository)
    reads player, repo
  {
    && player.id == old(player.id) && player.username == old(player.username)
    && player.skills == old(player.skills)
    && repo.players == old(repo.players) && repo.skillRows == old(repo.skillRows)
    && repo.inventoryRows == old(repo.inventoryRows)
  }

  /** Gives a player every default skill, overwriting those ids. */
  method GrantDefaultSkills(player: Player)
    modifies player`skills
    ensures player.skills == old(player.skills) + DefaultSkills(SKILL_COUNT)
  {
    for skillId := 0 to SKILL_COUNT
      invariant player.skills == old(player.skills) + DefaultSkills(skillId)
    {
      assert DefaultSkills(skillId + 1) == DefaultSkills(skillId)[skillId := Skill(skillId, DEFAULT_SKILL_LEVEL, DEFAULT_SKILL_EXPERIENCE)];
      player.skills := player.skills[skillId := Skill(skillId, DEFAULT_SKILL_LEVEL, DEFAULT_SKILL_EXPERIENCE)];
    }
  }

  /** `LOGOUT`: a player with an id is saved and told so (the confirmation is
      lost on a closed connection); it stays registered until its connection
      closes. A player without an id is left alone. */
  method HandleLogout(player: Player, repo: PlayerRepository, closed: set<nat>, uuid: string) returns (replies: seq<string>)
    requires repo.Valid()
    modifies repo`players, repo`nextPlayerId, repo`skillRows, repo`inventoryRows, player`id
    ensures repo.Valid()
    ensures replies == if old(player.id).Some? then Written(LOGOUT_SUCCESS, player.CanDeliver(closed)) else []
    ensures old(player.id).None? ==>
              player.id == old(player.id) && repo.players == old(repo.players) &&
              repo.skillRows == old(repo.skillRows) && repo.inventoryRows == old(repo.inventoryRows)
    ensures old(player.id).Some? && repo.available && old(player.id).value in old(repo.players) ==>
              var id := old(player.id).value;
              && player.id == old(player.id)
              && repo.players == old(repo.players)[id := old(repo.players)[id].(x := player.x, y := player.y, z := player.z, health := player.health)]
              && repo.skillRows == old(repo.skillRows)[id := RowsOf(old(repo.skillRows), id) + StoredSkills(player.skills)]
              && repo.inventoryRows == old(repo.inventoryRows)[id := SavedInventory(RowsOf(old(repo.inventoryRows), id), player.inventory[..])]
  {
    replies := [];
    if player.id.Some? {
      var saved := repo.SavePlayer(player, uuid);
      replies := Written(LOGOUT_SUCCESS, player.CanDeliver(closed));
    }
  }

  /** `handleMessage`: dispatch on the request; gameplay lines go to the
      player, which understands `MOVE:x,y`, and get no reply. */
  method HandleMessage(message: string, player: Player, engine: GameEngine, repo: PlayerRepository,
                       closed: set<nat>, uuid: string, inventorySize: nat)
    returns (replies: seq<string>)
    requires engine.Valid() && repo.Valid()
    modifies engine`players, player`id, player`username, player`skills, player`needsPositionUpdate, player`x, player`y
    modifies player.trace`events, engine.trace`events
    modifies repo`players, repo`nextPlayerId, repo`skillRows, repo`inventoryRows
    ensures engine.Valid() && repo.Valid()
    ensures ParseRequest(message).Ignored? ==>
              replies == [] && engine.players == old(engine.players) && AccountUnchanged(player, repo) &&
              player.x == old(player.x) && player.y == old(player.y)
    ensures ParseRequest(message).Gameplay? ==>
              replies == [] && engine.players == old(engine.players) && AccountUnchanged(player, repo) &&
              (ParseMove(message).Some? ==> player.x == ParseMove(message).value.0 && player.y == ParseMove(message).value.1 &&
                                            player.needsPositionUpdate) &&
              (ParseMove(message).None? ==> player.x == old(player.x) && player.y == old(player.y) &&
                                            player.needsPositionUpdate == old(player.needsPositionUpdate))
    ensures ParseRequest(message).Logout? ==>
              engine.players == old(engine.players) && player.x == old(player.x) && player.y == old(player.y) &&
              replies == if old(player.id).Some? then Written(LOGOUT_SUCCESS, player.CanDeliver(closed)) else []
    ensures ParseRequest(message).Register? ==>
              engine.players == old(engine.players) && player.x == old(player.x) && player.y == old(player.y)
    ensures ParseRequest(message).Register? && RegistrationError(ParseRequest(message).username, ParseRequest(message).password).None? &&
            repo.available && !old(repo.UsernameTaken(ParseRequest(message).username)) ==>
              player.id.Some? && repo.Accepts(player.id.value, ParseRequest(message).username, ParseRequest(message).password) &&
              Delivered(player, closed, RegisterSuccess(player.id.value, ParseRequest(message).username), replies)
    ensures ParseRequest(message).Login? ==>
              AccountUnchanged(player, repo) && player.x == old(player.x) && player.y == old(player.y)
    ensures ParseRequest(message).Login? && old(engine.LoggedIn(ParseRequest(message).username)) ==>
              replies == Written(ALREADY_LOGGED_IN, player.CanDeliver(closed)) && engine.players == old(engine.players)
    ensures ParseRequest(message).Login? && !old(engine.LoggedIn(ParseRequest(message).username)) &&
            repo.available && (exists r :: old(repo.Accepts(r, ParseRequest(message).username, ParseRequest(message).password))) ==>
              player.sessionId in engine.players &&
              var q := engine.players[player.sessionId];
              && fresh(q) && q.id.Some? && repo.Accepts(q.id.value, ParseRequest(message).username, ParseRequest(message).password)
              && engine.players == old(engine.players)[player.sessionId := q]
              && q.session == player.session
              && q.x == repo.players[q.id.value].x && q.y == repo.players[q.id.value].y
              && replies == if player.CanDeliver(closed) then [LoginSuccess(q.id.value, ParseRequest(message).username), PositionLine(q.x, q.y, q.z)] else []
  {
    match ParseRequest(message)
    case Login(username, password) =>
      replies := HandleLogin(username, password, player, engine, repo, closed, uuid, inventorySize);
      assert forall r :: old(repo.Accepts(r, username, password)) <==> repo.Accepts(r, username, password);
    case Register(username, password) =>
      replies := HandleRegister(username, password, player, engine, repo, closed, uuid);
    case Logout =>
      replies := HandleLogout(player, repo, closed, uuid);
    case Gameplay(m) =>
      player.HandleMessage(m);
      replies := [];
    case Ignored =>
      replies := [];
  }

  // ---------------------------------------------------------------------------
  // Connection lifecycle

  /** A new connection: an anonymous player at the spawn point is registered
      under the connection's session id, and `CONNECTED:<id>` is sent, unless
      the connection is already closed, when the write throws and the
      connection goes straight to `OnClose`. */
  method OnOpen(engine: GameEngine, sessionId: string, handle: nat, closed: set<nat>, inventorySize: nat)
    returns (player: Player, replies: seq<string>)
    requires engine.Valid()
    modifies engine`players
    ensures engine.Valid()
    ensures fresh(player) && player.sessionId == sessionId && player.session == Some(handle) && player.trace == engine.trace
    ensures player.x == START_X && player.y == START_Y && player.z == START_Z && !player.needsPositionUpdate
    ensures player.id.None? && player.username.None?
    ensures engine.players == old(engine.players)[sessionId := player]
    ensures replies == if handle in closed then [] else [Connected(sessionId)]
  {
    player := new Player(sessionId, Some(handle), inventorySize, engine.trace);
    engine.AddPlayer(player);
    replies := Written(Connected(sessionId), player.CanDeliver(closed));
  }

  /** A closed connection: the player now registered under the session id is
      saved if it has an id, and the session is unregistered. */
  method OnClose(engine: GameEngine, repo: PlayerRepository, sessionId: string, uuid: string)
    requires engine.Valid() && repo.Valid()
    modifies engine`players, engine.players.Values`id
    modifies repo`players, repo`nextPlayerId, repo`skillRows, repo`inventoryRows
    ensures engine.Valid() && repo.Valid()
    ensures engine.players == old(engine.players) - {sessionId}
    ensures sessionId !in old(engine.players) || old(engine.players[sessionId].id).None? ==>
              repo.players == old(repo.players) && repo.skillRows == old(repo.skillRows) &&
              repo.inventoryRows == old(repo.inventoryRows)
    ensures sessionId in old(engine.players) && old(engine.players[sessionId].id).Some? && repo.available &&
            old(engine.players[sessionId].id).value in old(repo.players) ==>
              var p := old(engine.players[sessionId]);
              var id := old(p.id).value;
              repo.players == old(repo.players)[id := old(repo.players)[id].(x := p.x, y := p.y, z := p.z, health := p.health)]
  {
    var player := engine.GetPlayer(sessionId);
    if player != null && player.id.Some? {
      var saved := repo.SavePlayer(player, uuid);
    }
    engine.RemovePlayer(sessionId);
  }

  // ---------------------------------------------------------------------------
  // Which player a frame reaches

  /** A frame routed to the player currently registered under the
      connection's session id, which after a login is the loaded player. */
  method OnFrame(message: string, sessionId: string, engine: GameEngine, repo: PlayerRepository,
                 closed: set<nat>, uuid: string, inventorySize: nat)
    returns (replies: seq<string>)
    requires engine.Valid() && repo.Valid()
    modifies engine`players, engine.players.Values`id, engine.players.Values`username, engine.players.Values`skills
    modifies engine.players.Values`needsPositionUpdate, engine.players.Values`x, engine.players.Values`y
    modifies engine.trace`events
    modifies repo`players, repo`nextPlayerId, repo`skillRows, repo`inventoryRows
    ensures engine.Valid() && repo.Valid()
    ensures sessionId !in old(engine.players) ==> replies == [] && engine.players == old(engine.players)
    ensures sessionId in old(engine.players) && ParseRequest(message).Gameplay? && ParseMove(message).Some? ==>
              engine.players == old(engine.players) &&
              engine.players[sessionId].x == ParseMove(message).value.0 &&
              engine.players[sessionId].y == ParseMove(message).value.1 &&
              engine.players[sessionId].id == old(engine.players[sessionId].id)
    ensures sessionId in old(engine.players) && ParseRequest(message).Logout? ==>
              engine.players == old(engine.players) &&
              replies == if old(engine.players[sessionId].id).Some? then Written(LOGOUT_SUCCESS, engine.players[sessionId].CanDeliver(closed)) else []
    ensures sessionId in old(engine.players) && ParseRequest(message).Login? &&
            !old(engine.LoggedIn(ParseRequest(message).username)) && repo.available &&
            (exists r :: old(repo.Accepts(r, ParseRequest(message).username, ParseRequest(message).password))) ==>
              sessionId in engine.players && fresh(engine.players[sessionId]) &&
              engine.players == old(engine.players)[sessionId := engine.players[sessionId]] &&
              engine.players[sessionId].id.Some? &&
              engine.players[sessionId].session == old(engine.players[sessionId].session) &&
              repo.Accepts(engine.players[sessionId].id.value, ParseRequest(message).username, ParseRequest(message).password) &&
              (engine.players[sessionId].CanDeliver(closed) <==> replies != []) &&
              (replies != [] ==> replies[0] == LoginSuccess(engine.players[sessionId].id.value, ParseRequest(message).username))
  {
    replies := [];
    var player := engine.GetPlayer(sessionId);
    if player != null {
      replies := HandleMessage(message, player, engine, repo, closed, uuid, inventorySize);
    }
  }

  /** The frames of the two scenarios below: a login as `username`, a move to
      (a, b) and a logout. */
  lemma ScenarioMessages(username: string, password: string, a: int, b: int)
    requires ':' !in username && ':' !in password
    requires IsInt32(a) && IsInt32(b)
    ensures ParseRequest(LoginCommand(username, password)) == Login(username, password)
    ensures ParseRequest(MoveCommand(a, b)) == Gameplay(MoveCommand(a, b))
    ensures ParseMove(MoveCommand(a, b)) == Some((a, b))
    ensures ParseRequest("LOGOUT") == Logout
  {
    LoginRequest(username, password, "");
    assert LoginCommand(username, password) == "LOGIN:" + username + ":" + password + "";
    MoveCommandRoundTrip(a, b);
    var m := MoveCommand(a, b);
    assert m[0] == 'M';
  }

  /** The line a client sends to log in. */
  function LoginCommand(username: string, password: string): string {
    "LOGIN:" + username + ":" + password
  }

  /** The line a client sends to move to (a, b). */
  function MoveCommand(a: int, b: int): string {
    "MOVE:" + IntToString(a) + "," + IntToString(b)
  }

  /** Registering a second value under the only key replaces the first. */
  lemma Overwrite<K, V>(k: K, a: V, b: V)
    ensures map[k := a][k := b] == map[k := b]
  {
  }

  /** A database holding one account and an engine with one fresh anonymous
      connection `s1`, before any frame has arrived. */
  method OneAccountOneConnection(hash: string -> string, username: string, password: string)
    returns (repo: PlayerRepository, engine: GameEngine, player: Player, id: int)
    requires |username| <= USERNAME_MAX
    ensures fresh(repo) && fresh(engine) && fresh(engine.trace) && fresh(player) && player.trace == engine.trace
    ensures repo.Valid() && repo.available && repo.Accepts(id, username, password) && repo.players[id].x == START_X
    ensures engine.Valid() && engine.players == map["s1" := player] && !engine.LoggedIn(username)
    ensures player.sessionId == "s1" && player.session == Some(1) && player.id.None? && player.x == START_X
  {
    repo := new PlayerRepository(hash);
    assert !repo.UsernameTaken(username);
    var created := repo.CreatePlayer(username, password);
    id := created.value;
    var trace := new Trace();
    engine := new GameEngine(trace);
    var greeting;
    player, greeting := OnOpen(engine, "s1", 1, {}, 28);
    assert engine.players.Keys == {"s1"};
  }

  /** The first frame of the connection loop as written: a login handed to
      the player object created when the connection opened. */
  method CapturedLogin(hash: string -> string, username: string, password: string)
    returns (repo: PlayerRepository, engine: GameEngine, player: Player, loaded: Player)
    requires ':' !in username && ':' !in password && |username| <= USERNAME_MAX
    ensures fresh(repo) && fresh(engine) && fresh(engine.trace) && fresh(player) && fresh(loaded)
    ensures player.trace == engine.trace
    ensures repo.Valid() && engine.Valid()
    ensures engine.players == map["s1" := loaded] && loaded != player
    ensures loaded.x == START_X && loaded.id.Some?
    ensures player.id.None?
  {
    var id;
    repo, engine, player, id := OneAccountOneConnection(hash, username, password);
    ScenarioMessages(username, password, 0, 0);
    var login := HandleMessage(LoginCommand(username, password), player, engine, repo, {}, "u1", 28);
    loaded := engine.players["s1"];
    Overwrite("s1", player, loaded);
  }

  /** The second frame as written: a move, again handed to that player. */
  method CapturedLoginThenMove(hash: string -> string, username: string, password: string, a: int, b: int)
    returns (repo: PlayerRepository, engine: GameEngine, player: Player, loaded: Player)
    requires ':' !in username && ':' !in password && |username| <= USERNAME_MAX
    requires IsInt32(a) && IsInt32(b)
    ensures fresh(repo) && fresh(engine) && fresh(engine.trace) && fresh(player) && fresh(loaded)
    ensures player.trace == engine.trace
    ensures repo.Valid() && engine.Valid()
    ensures engine.players == map["s1" := loaded] && loaded != player
    ensures loaded.x == START_X && loaded.id.Some?
    ensures player.x == a && player.id.None?
  {
    repo, engine, player, loaded := CapturedLogin(hash, username, password);
    ScenarioMessages(username, password, a, b);
    var move := HandleMessage(MoveCommand(a, b), player, engine, repo, {}, "u2", 28);
  }

  /** The connection loop as written: every frame goes to the player object
      created when the connection opened. After a login on that connection
      the registry holds the loaded player, but a move still reaches the
      anonymous one, so the logged-in player stays at the spawn point, and a
      logout is answered with nothing because the anonymous player has no id. */
  method CapturedPlayerScenario(hash: string -> string, username: string, password: string, a: int, b: int)
    returns (registeredX: int, connectionX: int, logoutReplies: seq<string>)
    requires ':' !in username && ':' !in password && |username| <= USERNAME_MAX
    requires IsInt32(a) && IsInt32(b)
    ensures registeredX == START_X && connectionX == a
    ensures logoutReplies == []
  {
    var repo, engine, player, loaded := CapturedLoginThenMove(hash, username, password, a, b);
    ScenarioMessages(username, password, a, b);
    logoutReplies := HandleMessage("LOGOUT", player, engine, repo, {}, "u3", 28);
    registeredX := loaded.x;
    connectionX := player.x;
  }

  /** The first frame routed by session id: a login. */
  method SessionLogin(hash: string -> string, username: string, password: string)
    returns (repo: PlayerRepository, engine: GameEngine, loaded: Player)
    requires ':' !in username && ':' !in password && |username| <= USERNAME_MAX
    ensures fresh(repo) && fresh(engine) && fresh(engine.trace) && fresh(loaded)
    ensures repo.Valid() && engine.Valid()
    ensures engine.players == map["s1" := loaded]
    ensures loaded.id.Some? && loaded.session == Some(1)
  {
    var player, id;
    repo, engine, player, id := OneAccountOneConnection(hash, username, password);
    ScenarioMessages(username, password, 0, 0);
    var login := OnFrame(LoginCommand(username, password), "s1", engine, repo, {}, "u1", 28);
    loaded := engine.players["s1"];
    Overwrite("s1", player, loaded);
  }

  /** The second frame routed by session id: a move. */
  method SessionLoginThenMove(hash: string -> string, username: string, password: string, a: int, b: int)
    returns (repo: PlayerRepository, engine: GameEngine, loaded: Player)
    requires ':' !in username && ':' !in password && |username| <= USERNAME_MAX
    requires IsInt32(a) && IsInt32(b)
    ensures fresh(repo) && fresh(engine) && fresh(engine.trace) && fresh(loaded)
    ensures repo.Valid() && engine.Valid()
    ensures engine.players == map["s1" := loaded]
    ensures loaded.x == a && loaded.id.Some? && loaded.session == Some(1)
  {
    repo, engine, loaded := SessionLogin(hash, username, password);
    ScenarioMessages(username, password, a, b);
    var move := OnFrame(MoveCommand(a, b), "s1", engine, repo, {}, "u2", 28);
  }

  /** The same frames routed by session id: the move reaches the logged-in
      player and the logout is acknowledged. */
  method SessionLookupScenario(hash: string -> string, username: string, password: string, a: int, b: int)
    returns (registeredX: int, logoutReplies: seq<string>)
    requires ':' !in username && ':' !in password && |username| <= USERNAME_MAX
    requires IsInt32(a) && IsInt32(b)
    ensures registeredX == a
    ensures logoutReplies == [LOGOUT_SUCCESS]
  {
    var repo, engine, loaded := SessionLoginThenMove(hash, username, password, a, b);
    registeredX := loaded.x;
    ScenarioMessages(username, password, a, b);
    logoutReplies := OnFrame("LOGOUT", "s1", engine, repo, {}, "u3", 28);
  }
}
