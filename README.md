# krune game server core, in Dafny

This project models the sequential game-state logic of the krune RuneScape-style
server, a Kotlin server that clients reach over a WebSocket with one-line text
commands:

- **Player** (`Players`): a player's position, its "needs position update" flag,
  the `MOVE:x,y` command and the `POS:x,y,z` line it sends.
- **Game engine** (`Engine`): a session-id → player registry with add, remove,
  get and replace. It also has the compare-and-set running flag, and one
  iteration of the 600 ms loop as a sequential step. A tick calls `update` once
  on every player and only then `sendUpdates` once on every player, in the
  engine's shared call log, so no send comes before any update. The loop's
  sleep time is `max(0, 600 − elapsed)`.
- **Protocol dispatcher** (`Server`): `LOGIN:`, `REGISTER:`, `LOGOUT` and
  gameplay lines. The model covers the registration rules in their fixed order,
  the exact reply lines, and the bookkeeping when a connection opens and closes.
- **Player persistence** (`PlayerStore`): the players, skills and inventory
  tables as in-memory maps. Saving is find-or-create and then a field copy, with
  per-row sync of skills and inventory slots. Loading rebuilds the player.
  Authentication is by username and password hash.
- **World and item tables** (`WorldStore`, `ItemStore`): keyed stores with
  create, find-by-id, filtered finds, partial update ("null means leave
  unchanged") and delete.

Supporting modules:

- `Nullable` models Kotlin's `T?` as `Option`.
- `Text` models the Kotlin string operations the protocol relies on: `split`,
  decimal rendering of an `Int`, `toInt` and `length` (in UTF-16 code units).
- `Tables` models a table query that returns rows in id order.
- `Sets` holds one lemma about non-empty sets.

Modelling choices:

- **Classes where the source mutates state.** What the Kotlin code mutates in
  place is a Dafny `class` whose methods carry `modifies` clauses: `Player`,
  `GameEngine` and the three repositories. Database tables are `map` fields
  keyed by row id.
- **Database fault flag.** Every repository has an `available` flag. While it is
  false, each operation takes the source's `catch` branch and returns null,
  false or an empty list.
- **Outbound frames.** They are the returned sequence of lines. A frame written
  to a connection whose handle is in `closed` fails. `sendUpdates` swallows that
  failure, as the source does. A direct `send` in `Main.kt` does not: it throws
  out of `handleMessage` to the `catch` at `Main.kt:66`, so the failed line and
  every step after it in that frame's handling are skipped (`Server.Written`).
  The connection then ends, which is `Server.OnClose`.
- **Call log.** The players of an engine share one ghost `Trace`. Each
  `update` and `sendUpdates` call appends a `LoopEvent` to it: the player's
  session id and which call it was. So the order of the game loop's calls
  across players is a fact about the calls themselves. `Engine.TwoPhase` says
  what one tick appends: one `update` per registered session, then one
  `sendUpdates` per registered session.
- **Session handle.** A `Player` holds an optional `session: Option<nat>`, since
  players loaded from the database have none.
- **Inventory size.** The inventory size is a parameter, `inventorySize`.
- **Random UUIDs.** They are `uuid` string parameters.
- **Password hash.** `hashPassword` (SHA-256 as hex) is the uninterpreted
  function `hash` of a `PlayerRepository`.
- **Skills and inventory tables.** They are stored per player, keyed by skill id
  and by slot, rather than by their serial row ids. The save code never creates
  a second row for the same (player, skill id) or (player, slot), so a lookup by
  that pair is all the source ever does with them.

Behaviour of the code that the model keeps as written:

- The server writes positions as `POS:x,y,z` (`server/src/main/kotlin/com/example/rsps/game/Player.kt:40`).
  The browser client reacts only to lines starting with `POSITION:` and reads
  `:`-separated fields (`client/src/index.ts:184-196`), so it ignores every
  position the server sends. The model follows the server.
- `MOVE:x,y` sets the position directly (`server/src/main/kotlin/com/example/rsps/game/Player.kt:55-71`).
  There is no step-wise movement, direction, running, teleport or
  experience-to-level formula.
- A successful login or registration sends the position at once through
  `sendUpdates` (`server/src/main/kotlin/com/example/rsps/Main.kt:134-135` and `Main.kt:192-193`), not on the
  next tick.
- `REGISTER:` checks only whether the username exists in the database
  (`server/src/main/kotlin/com/example/rsps/Main.kt:163`), not whether a connected player holds it.
- The save and load of `server/src/main/kotlin/com/example/rsps/game/PlayerRepository.kt:69-136` have no
  equipment slots. The skills come back as saved, together with any rows already
  stored for other skill ids, because saving never deletes skill rows.

## Model

| member | source | states |
|---|---|---|
| Nullable.Override | server/src/main/kotlin/com/example/rsps/game/WorldRepository.kt:106-108 | a null update argument leaves the field as it was, a non-null one replaces it |
| Nullable.OverrideNullable | server/src/main/kotlin/com/example/rsps/game/ItemRepository.kt:96-103 | the same for a nullable field, and a field that holds a value still holds one afterwards (null cannot clear it) |
| Text.Split | server/src/main/kotlin/com/example/rsps/game/Player.kt:57 | `split` yields at least one piece and no piece contains the separator |
| Text.JoinSplit | server/src/main/kotlin/com/example/rsps/Main.kt:105 | joining the pieces of a split with the separator gives back the original text (split loses nothing) |
| Text.SplitJoin | server/src/main/kotlin/com/example/rsps/Main.kt:146 | splitting the join of separator-free pieces gives back exactly those pieces |
| Text.IntToString | server/src/main/kotlin/com/example/rsps/game/Player.kt:40 | the decimal rendering of an `Int` is non-empty and contains neither `,` nor `:`, so it is one field of a reply |
| Text.Utf16Length | server/src/main/kotlin/com/example/rsps/Main.kt:152 | `String.length` counts UTF-16 code units: between one and two per character, exactly one per character when all are in the Basic Multilingual Plane and two when none are |
| Text.Utf16LengthAppend | server/src/main/kotlin/com/example/rsps/Main.kt:152 | the length of a concatenation is the sum of the lengths |
| Text.ParseInt | server/src/main/kotlin/com/example/rsps/game/Player.kt:60-61 | `toInt` succeeds only on an optional `+` or `-` followed by at least one digit, with a value in the 32-bit `Int` range; the value is the digits' value, negated after `-`; and every such text within range does parse |
| Text.ParseIntToString | server/src/main/kotlin/com/example/rsps/game/Player.kt:60-61 | parsing the rendering of any `Int` gives that `Int` back |
| Tables.SelectIds | server/src/main/kotlin/com/example/rsps/game/WorldRepository.kt:185-196 | exactly the ids of the stored rows that satisfy the filter, strictly increasing |
| Tables.Select | server/src/main/kotlin/com/example/rsps/game/ItemRepository.kt:132-141 | a row is returned iff it is stored and satisfies the filter; the rows come in id order |
| Players.PositionLineFields | server/src/main/kotlin/com/example/rsps/game/Player.kt:40 | the line written is `POS:` followed by exactly three comma-separated fields that parse back to x, y and z |
| Players.ParseMove | server/src/main/kotlin/com/example/rsps/game/Player.kt:55-71 | a message without the `MOVE:` prefix is not a move, and a move's coordinates are `Int` values |
| Players.MoveReadsFirstTwoFields | server/src/main/kotlin/com/example/rsps/game/Player.kt:57-61 | `MOVE:f0,f1…` is a move iff both f0 and f1 parse; then it moves to their values, and fields after the second are ignored |
| Players.MoveNeedsTwoFields | server/src/main/kotlin/com/example/rsps/game/Player.kt:58 | `MOVE:` with a single field is no move |
| Players.MoveCommandRoundTrip | server/src/main/kotlin/com/example/rsps/game/Player.kt:56-66 | the command `MOVE:a,b` is understood as a move to exactly (a, b) |
| Players.Player.constructor | server/src/main/kotlin/com/example/rsps/game/Player.kt:10-22 | a new player has the given session, stands at (3222, 3222, 0), has the flag clear, no id or username, health 100, no skills and all slots empty |
| Players.Player.AttachSession | server/src/main/kotlin/com/example/rsps/Main.kt:124 | the player now has the given session id and connection, and nothing else of it changes |
| Players.Player.Update | server/src/main/kotlin/com/example/rsps/game/Player.kt:27-30 | the per-tick update changes no state of the player; the call, under the player's session id, is appended to the shared call log |
| Players.Player.SendUpdates | server/src/main/kotlin/com/example/rsps/game/Player.kt:35-48 | with the flag set and a live connection, exactly `POS:x,y,z` is written and the flag is cleared; otherwise nothing is written and the flag is unchanged, so a failed write is retried next time; either way the call, under the player's session id, is appended to the shared call log |
| Players.Player.HandleMessage | server/src/main/kotlin/com/example/rsps/game/Player.kt:53-75 | a valid move sets x and y to its values and sets the flag; any other message, or a field that is not an `Int`, changes neither coordinate nor the flag; z never changes |
| Engine.SleepTime | server/src/main/kotlin/com/example/rsps/game/GameEngine.kt:45-46 | the sleep is never negative, fills up the rest of the 600 ms period, and is 0 once the period is used up |
| Engine.OverranMeansNoSleep | server/src/main/kotlin/com/example/rsps/game/GameEngine.kt:45-50 | after an overrun there is no sleep; otherwise the tick and the sleep add up to exactly 600 ms; a zero sleep without the warning happens only when the tick took exactly 600 ms |
| Engine.GameEngine.constructor | server/src/main/kotlin/com/example/rsps/game/GameEngine.kt:17-21 | a new engine is not running and has no players |
| Engine.GameEngine.Start | server/src/main/kotlin/com/example/rsps/game/GameEngine.kt:31-36 | afterwards the flag is set, and a loop is launched iff it was clear before |
| Engine.GameEngine.Stop | server/src/main/kotlin/com/example/rsps/game/GameEngine.kt:61-65 | afterwards the flag is clear, and the stop is logged iff it was set before |
| Engine.GameEngine.AddPlayer | server/src/main/kotlin/com/example/rsps/game/GameEngine.kt:70-73 | for a player that logs to the engine's call log, `getPlayer` of the player's session id is that player, any previous entry under the id is overwritten, and every other entry is unchanged |
| Engine.GameEngine.RemovePlayer | server/src/main/kotlin/com/example/rsps/game/GameEngine.kt:78-81 | the id is absent afterwards, other entries are unchanged, and removing an absent id changes nothing |
| Engine.GameEngine.GetPlayer | server/src/main/kotlin/com/example/rsps/game/GameEngine.kt:86-88 | non-null iff the session id is registered, and then the registered player |
| Engine.GameEngine.GetPlayerByUsername | server/src/main/kotlin/com/example/rsps/Main.kt:111 | non-null iff some registered player has the username, and then such a player |
| Engine.GameEngine.ReplacePlayer | server/src/main/kotlin/com/example/rsps/game/GameEngine.kt:93-101 | for a new player that logs to the engine's call log, the new player is under its session id, the old player's id is gone unless the ids are equal, and no other entry changes |
| Engine.GameEngine.UpdateAll | server/src/main/kotlin/com/example/rsps/game/GameEngine.kt:108-110 | the shared log grows by one `update` call on each registered session, no session twice (`Engine.OneCallEach`), and nothing else of any player changes |
| Engine.GameEngine.SendAll | server/src/main/kotlin/com/example/rsps/game/GameEngine.kt:112-114 | the shared log grows by one `sendUpdates` call on each registered session, no session twice; a session gets its `POS` line iff its flag was set and its connection is live, the line carries that player's position, and the flag then stays set exactly for the failed writes |
| Engine.GameEngine.Tick | server/src/main/kotlin/com/example/rsps/game/GameEngine.kt:106-116 | the shared log grows by a two-phase tick over the registered sessions (`Engine.TwoPhase`): one `update` on each session, then one `sendUpdates` on each; a session gets its `POS` line iff its flag was set and its connection is live, and the flag then stays set exactly for the failed writes |
| Engine.GameEngine.RunIteration | server/src/main/kotlin/com/example/rsps/game/GameEngine.kt:36-53 | a tick runs iff the flag is still set: then the shared log grows by a two-phase tick over the registered sessions, otherwise neither the log nor any flag changes; the step is followed by `SleepTime(elapsed)` and the warning iff the tick overran |
| Engine.TwoPhaseOrder | server/src/main/kotlin/com/example/rsps/game/GameEngine.kt:106-116 | in a two-phase tick every `update` call comes before every `sendUpdates` call, whichever players they are on |
| Engine.TwoPhaseCoversSessions | server/src/main/kotlin/com/example/rsps/game/GameEngine.kt:106-116 | in a two-phase tick every registered session gets both its `update` and its `sendUpdates` call |
| Engine.InterleavedIsNotTwoPhase | server/src/main/kotlin/com/example/rsps/game/GameEngine.kt:106-116 | with two players, updating and sending player by player is not a two-phase tick, so the tick's contract rules out the interleaved order |
| Engine.OneCallEachStep | server/src/main/kotlin/com/example/rsps/game/GameEngine.kt:108-114 | one more call on a session not yet called extends one call per session to the larger set of sessions |
| PlayerStore.SkillsRoundTrip | server/src/main/kotlin/com/example/rsps/game/PlayerRepository.kt:141-184 | loading the rows a skills save wrote gives back the saved skills, plus any rows already stored for other skill ids; when there are none, exactly the saved skills |
| PlayerStore.SavedInventory | server/src/main/kotlin/com/example/rsps/game/PlayerRepository.kt:189-216 | after a save an occupied slot has its `(itemId, amount)` row, an empty slot has none, and rows for slots outside the array are untouched |
| PlayerStore.LoadedInventory | server/src/main/kotlin/com/example/rsps/game/PlayerRepository.kt:221-242 | after a load the array has the given size, a slot holds an item iff a row exists for it (the row's item), and out-of-range rows are ignored |
| PlayerStore.InventoryRoundTrip | server/src/main/kotlin/com/example/rsps/game/PlayerRepository.kt:189-242 | loading what an inventory save wrote reproduces the saved array, whatever rows were there before |
| PlayerStore.PlayerRepository.constructor | server/src/main/kotlin/com/example/rsps/Database.kt:16-41 | an empty database that accepts transactions |
| PlayerStore.PlayerRepository.CreatePlayer | server/src/main/kotlin/com/example/rsps/game/PlayerRepository.kt:19-33 | a new row exists iff the database is up, the username fits `varchar(50)` and is not taken; the row holds the username, the password hash and the column defaults, and it authenticates with that password; otherwise nothing changes |
| PlayerStore.PlayerRepository.FindPlayerByUsername | server/src/main/kotlin/com/example/rsps/game/PlayerRepository.kt:38-47 | a row is found iff the database is up and some row has the username, and then it is such a row |
| PlayerStore.PlayerRepository.AuthenticatePlayer | server/src/main/kotlin/com/example/rsps/game/PlayerRepository.kt:52-64 | a row is found iff the database is up and some row has the username and the hash of the password, and then it is such a row |
| PlayerStore.PlayerRepository.OnlyCreatedRowAccepts | server/src/main/kotlin/com/example/rsps/Database.kt:17 | because usernames are unique, one row at most authenticates a username and password |
| PlayerStore.PlayerRepository.SavePlayerSkills | server/src/main/kotlin/com/example/rsps/game/PlayerRepository.kt:141-161 | without an id nothing changes; otherwise each skill in the map has its level and experience upserted, and no row is deleted |
| PlayerStore.PlayerRepository.LoadPlayerSkills | server/src/main/kotlin/com/example/rsps/game/PlayerRepository.kt:166-184 | without an id nothing changes; otherwise the skill map is exactly the one the player's rows describe |
| PlayerStore.PlayerRepository.SavePlayerInventory | server/src/main/kotlin/com/example/rsps/game/PlayerRepository.kt:189-216 | without an id nothing changes; otherwise the player's rows become `SavedInventory` of their old rows and the array |
| PlayerStore.PlayerRepository.LoadPlayerInventory | server/src/main/kotlin/com/example/rsps/game/PlayerRepository.kt:221-242 | without an id nothing changes; otherwise the array becomes `LoadedInventory` of the player's rows |
| PlayerStore.PlayerRepository.SavePlayer | server/src/main/kotlin/com/example/rsps/game/PlayerRepository.kt:69-102 | succeeds iff the database is up and the player's id names a row, or a new row named by the username or `unnamed_<uuid>` can be created; on success the player's id names that row, which then holds the player's x, y, z and health, and skills and inventory are synced; on failure nothing changes |
| PlayerStore.PlayerRepository.LoadPlayer | server/src/main/kotlin/com/example/rsps/game/PlayerRepository.kt:107-136 | null iff the database is down or there is no such row; otherwise a fresh player, logging to the given call log, with session id `db_<uuid>`, no connection, the flag clear, and the row's id, username, position, health, skills and inventory |
| PlayerStore.PlayerRepository.SaveThenLoad | server/src/main/kotlin/com/example/rsps/game/PlayerRepository.kt:69-136 | a successful save followed by a load by the saved id gives back the id, position, health and inventory, the username of a newly created row, and the saved skills |
| WorldStore.PatchRegion | server/src/main/kotlin/com/example/rsps/game/WorldRepository.kt:106-108 | id and coordinates are kept; name, wilderness and PvP flags are overwritten only by non-null arguments |
| WorldStore.PatchRegionLaws | server/src/main/kotlin/com/example/rsps/game/WorldRepository.kt:96-116 | an update without arguments changes nothing, repeating an update changes nothing more, and a name once set cannot be cleared |
| WorldStore.PatchObject | server/src/main/kotlin/com/example/rsps/game/WorldRepository.kt:226-227 | only rotation and respawn time can change, each only by a non-null argument |
| WorldStore.PatchObjectLaws | server/src/main/kotlin/com/example/rsps/game/WorldRepository.kt:217-235 | an object update without arguments changes nothing, and repeating one changes nothing more |
| WorldStore.WorldRepository.constructor | server/src/main/kotlin/com/example/rsps/Database.kt:56-74 | empty region and object tables in a database that accepts transactions |
| WorldStore.WorldRepository.FindRegionById | server/src/main/kotlin/com/example/rsps/game/WorldRepository.kt:52-61 | found iff the database is up and the id is stored, and then the stored region |
| WorldStore.WorldRepository.GetAllRegions | server/src/main/kotlin/com/example/rsps/game/WorldRepository.kt:82-91 | exactly the stored regions, in id order; none while the database is down |
| WorldStore.WorldRepository.FindRegionByCoordinates | server/src/main/kotlin/com/example/rsps/game/WorldRepository.kt:66-77 | a stored region with equal x, y and z (z defaults to 0), the lowest-id one; none iff no region matches or the database is down |
| WorldStore.WorldRepository.CreateRegion | server/src/main/kotlin/com/example/rsps/game/WorldRepository.kt:24-47 | created iff the database is up and the name fits `varchar(100)`; stores the given values with defaults z = 0, no name and both flags false, under a new id, and the region is then found by id and by coordinates |
| WorldStore.WorldRepository.UpdateRegion | server/src/main/kotlin/com/example/rsps/game/WorldRepository.kt:96-116 | true iff the database is up, the id is stored and a given name fits `varchar(100)`; false and nothing changed when the id is missing, the new name is too long or the database is down; otherwise only that region changes, to `PatchRegion` of it |
| WorldStore.WorldRepository.DeleteRegion | server/src/main/kotlin/com/example/rsps/game/WorldRepository.kt:121-132 | false and nothing changed on a missing id or a region still referenced by an object; otherwise the region is gone and find-by-id returns none |
| WorldStore.WorldRepository.FindWorldObjectById | server/src/main/kotlin/com/example/rsps/game/WorldRepository.kt:171-180 | found iff the database is up and the id is stored, and then the stored object |
| WorldStore.WorldRepository.GetAllWorldObjects | server/src/main/kotlin/com/example/rsps/game/WorldRepository.kt:256-265 | exactly the stored objects, in id order |
| WorldStore.WorldRepository.FindWorldObjectsByCoordinates | server/src/main/kotlin/com/example/rsps/game/WorldRepository.kt:185-196 | exactly the stored objects with equal x, y and z, in id order |
| WorldStore.WorldRepository.FindWorldObjectsByRegion | server/src/main/kotlin/com/example/rsps/game/WorldRepository.kt:201-212 | exactly the stored objects linked to the region, in id order |
| WorldStore.WorldRepository.CreateWorldObject | server/src/main/kotlin/com/example/rsps/game/WorldRepository.kt:141-166 | stores the given values with defaults z, rotation and respawn time 0; the region link is set only when the id is given and names an existing region; the object is then found by id, by coordinates and by its region |
| WorldStore.WorldRepository.UpdateWorldObject | server/src/main/kotlin/com/example/rsps/game/WorldRepository.kt:217-235 | false and nothing changed when the id is missing; otherwise only that object changes, to `PatchObject` of it |
| WorldStore.WorldRepository.DeleteWorldObject | server/src/main/kotlin/com/example/rsps/game/WorldRepository.kt:240-251 | false and nothing changed on a missing id; otherwise the object is gone and find-by-id returns none |
| ItemStore.PatchItem | server/src/main/kotlin/com/example/rsps/game/ItemRepository.kt:96-103 | the id is kept and each field is overwritten only by a given argument |
| ItemStore.PatchItemLaws | server/src/main/kotlin/com/example/rsps/game/ItemRepository.kt:81-111 | an update without arguments changes nothing, applying one twice is the same as once, and description and alchemy values cannot be cleared |
| ItemStore.ItemRepository.constructor | server/src/main/kotlin/com/example/rsps/Database.kt:44-53 | an empty item table in a database that accepts transactions |
| ItemStore.ItemRepository.CreateItem | server/src/main/kotlin/com/example/rsps/game/ItemRepository.kt:17-44 | created iff the database is up and the name fits `varchar(100)`; stores the given fields with defaults (description and alchemy values null, both flags false, value 0, weight 0.0) under a new id, then found by id and in `getAllItems` |
| ItemStore.ItemRepository.FindItemById | server/src/main/kotlin/com/example/rsps/game/ItemRepository.kt:49-58 | found iff the database is up and the id is stored, and then the stored item |
| ItemStore.ItemRepository.GetAllItems | server/src/main/kotlin/com/example/rsps/game/ItemRepository.kt:132-141 | exactly the stored items, in id order |
| ItemStore.ItemRepository.UpdateItem | server/src/main/kotlin/com/example/rsps/game/ItemRepository.kt:81-111 | false and nothing changed when the id is missing (or the new name is too long); otherwise only that item changes, to `PatchItem` of it |
| ItemStore.ItemRepository.DeleteItem | server/src/main/kotlin/com/example/rsps/game/ItemRepository.kt:116-127 | false and nothing changed on a missing id; otherwise the item is gone and find-by-id returns none |
| Server.SuccessReplyFields | server/src/main/kotlin/com/example/rsps/Main.kt:130 | `LOGIN_SUCCESS:<id>:<username>` and `REGISTER_SUCCESS:<id>:<username>` split on `:` into tag, id and username, and the id reads back |
| Server.Credentials | server/src/main/kotlin/com/example/rsps/Main.kt:105-108 | username and password are two `:`-free parts of the text after the prefix |
| Server.CredentialsFields | server/src/main/kotlin/com/example/rsps/Main.kt:105-108 | the username and password are exactly the first two parts; further parts are ignored |
| Server.CredentialsNeedTwoParts | server/src/main/kotlin/com/example/rsps/Main.kt:106 | text with a single part yields no credentials |
| Server.ParseRequest | server/src/main/kotlin/com/example/rsps/Main.kt:102-221 | the first matching prefix among `LOGIN:`, `REGISTER:` and `LOGOUT` decides the request, exactly; anything else is gameplay carrying the whole line; a login or register carries the first two parts after its prefix |
| Server.LoginRequest | server/src/main/kotlin/com/example/rsps/Main.kt:104-108 | `LOGIN:u:p`, with or without further parts, is a login as u with password p |
| Server.RegisterRequest | server/src/main/kotlin/com/example/rsps/Main.kt:145-149 | `REGISTER:u:p`, with or without further parts, is a registration of u with password p |
| Server.SinglePartIgnored | server/src/main/kotlin/com/example/rsps/Main.kt:147 | a login or registration with one part does nothing |
| Server.RegistrationError | server/src/main/kotlin/com/example/rsps/Main.kt:152-160 | no error iff the username is 3 to 12 UTF-16 code units long and the password at least 5; the username rule is reported first, then the password rule |
| Server.SupplementaryCharactersCountTwice | server/src/main/kotlin/com/example/rsps/Main.kt:152 | six characters outside the Basic Multilingual Plane are an acceptable username and seven are too long, because each counts as two units |
| Server.DefaultSkills | server/src/main/kotlin/com/example/rsps/Main.kt:177-179 | skills 0 to n−1, each at level 1 with 0.0 experience |
| Server.GrantDefaultSkills | server/src/main/kotlin/com/example/rsps/Main.kt:177-179 | the player's skills become its old ones with ids 0 to 22 set to the defaults |
| Server.HandleLogin | server/src/main/kotlin/com/example/rsps/Main.kt:110-141 | a username held by a registered player gets `LOGIN_FAILED:Already logged in`, and bad credentials get `LOGIN_FAILED:Invalid username or password`, both with the registry and the log unchanged; on success a fresh player restored from the authenticated row, bound to this connection, replaces only this session's entry; on an open connection the reply is `LOGIN_SUCCESS:<id>:<username>` then its `POS` line, with the flag clear and one `sendUpdates` call on this session appended to the shared log; on a closed one the first write throws, so nothing is written and the flag and log stay as loaded |
| Server.Admit | server/src/main/kotlin/com/example/rsps/Main.kt:124-135 | the loaded player takes the connection's session id and handle and its registry entry, then the success line and the position are delivered as `Server.Delivered` says |
| Server.Announce | server/src/main/kotlin/com/example/rsps/Main.kt:130-135 | on an open connection the line and the `POS` line are written, the flag ends clear and one `sendUpdates` call is logged; on a closed one the direct write throws and neither the flag nor the log changes |
| Server.HandleRegister | server/src/main/kotlin/com/example/rsps/Main.kt:151-196 | length errors (in UTF-16 code units), then an existing username, then a failed creation each get their own `REGISTER_FAILED:` line, written only on an open connection, with nothing created or saved and the flag and log unchanged; on success the player has the new id, the username and the default skills, the new row holds its position, health and password hash with skills and inventory saved, and the success line and `POS` line are delivered as `Server.Delivered` says |
| Server.CreateAccount | server/src/main/kotlin/com/example/rsps/Main.kt:162-197 | a taken username gets `REGISTER_FAILED:Username already exists`; a database that is down or a username too long for its column gets `REGISTER_FAILED:Registration failed`; both change nothing; otherwise the player is enrolled under a new row |
| Server.Enrol | server/src/main/kotlin/com/example/rsps/Main.kt:170-193 | after the row is inserted: id and username are set, default skills granted and the player saved, whether or not the connection is open; then the success line and the position are delivered as `Server.Delivered` says |
| Server.HandleLogout | server/src/main/kotlin/com/example/rsps/Main.kt:201-213 | with an id the player is saved, and `LOGOUT_SUCCESS` is written if the connection is open; without one nothing changes and nothing is sent |
| Server.HandleMessage | server/src/main/kotlin/com/example/rsps/Main.kt:94-222 | per request kind: an ignored command and gameplay send nothing, and gameplay moves the player only on a valid `MOVE:`; logout and register never move the player or touch the registry; login never changes the connection's player or the tables, and fails fast for a connected username; each reply is written only while the connection is open |
| Server.OnOpen | server/src/main/kotlin/com/example/rsps/Main.kt:45-54 | a fresh anonymous player at the spawn point is registered under the session id, and `CONNECTED:<id>` is sent unless the connection is already closed, when the write throws and nothing is sent |
| Server.OnClose | server/src/main/kotlin/com/example/rsps/Main.kt:68-79 | the player now registered under the session is saved only if it has an id, and the session is unregistered |
| Server.OnFrame | server/src/main/kotlin/com/example/rsps/Main.kt:57-70 | a frame reaches the player registered under the session id: a move after a login moves the logged-in player, a logout of a logged-in player is acknowledged on an open connection, and a login keeps the connection and replies iff it is open |
| Server.ScenarioMessages | server/src/main/kotlin/com/example/rsps/Main.kt:102-220 | `LOGIN:u:p`, `MOVE:a,b` and `LOGOUT` are parsed as a login, a move to (a, b) and a logout |
| Server.OneAccountOneConnection | server/src/main/kotlin/com/example/rsps/Main.kt:48-54 | a database with one account and one open anonymous connection `s1` |
| Server.CapturedLogin | server/src/main/kotlin/com/example/rsps/Main.kt:50-63 | after a login frame on the connection as written, the registry holds the loaded player, which is not the connection's player object |
| Server.CapturedLoginThenMove | server/src/main/kotlin/com/example/rsps/Main.kt:50-63 | a move frame as written moves the connection's anonymous player and not the logged-in one |
| Server.CapturedPlayerScenario | server/src/main/kotlin/com/example/rsps/Main.kt:50-63 | as written, after login, move and logout the logged-in player is still at x = 3222 and the logout gets no reply |
| Server.SessionLogin | server/src/main/kotlin/com/example/rsps/Main.kt:70 | a login frame routed by session id leaves the loaded player as the only registered one |
| Server.SessionLoginThenMove | server/src/main/kotlin/com/example/rsps/Main.kt:70 | a move frame routed by session id moves the logged-in player |
| Server.SessionLookupScenario | server/src/main/kotlin/com/example/rsps/Main.kt:70 | routed by session id, the same frames move the logged-in player to x = a and the logout is acknowledged with `LOGOUT_SUCCESS` |

## Left out

- Ktor, WebSocket frames and the `consumeEach` loop (`Main.kt:17-89` apart from
  the open, frame and close bookkeeping) are I/O. Outbound frames are the
  returned sequence of lines. A failed write is a connection handle in `closed`.
- Coroutines, `delay`, `System.currentTimeMillis` and `ConcurrentHashMap` are
  left out. The game loop is one sequential iteration, `RunIteration`, with the
  elapsed time as a parameter.
- Players.Player.Update and Players.Player.SendUpdates: the ghost `Trace` log
  is not in the source; it records the calls so that their order across
  players can be stated.
- A failed direct `send` ends the connection's frame loop in the source. The
  model states the effects of the failed frame; the connection's close is the
  separate `Server.OnClose`.
- The health default 100 of a new `Player` comes from the players table's column
  default (`Database.kt:22`), because `Player.kt` declares no `health`.
- Text.Utf16Length is used for Kotlin's `length` checks in `Main.kt`. The
  database's `varchar(n)` limits are checked against the number of characters,
  which is how PostgreSQL counts them.
- Timestamps (`createdAt`, `lastLogin`, `creationTime`, `lastLoginTime`) are
  clock reads and are not modelled.
- `updateSessionActivity` is called by `Main.kt` but `GameEngine.kt` does not
  define it. Its effect is unknown, so it is not modelled.
- `Player.kt` declares no `id`, `username`, `health`, `skills`, `inventory` or
  `attachSession`. They are modelled as that class's fields and method because
  `Main.kt` and `PlayerRepository.kt` use them.
- `getPlayerByUsername` is not defined in `GameEngine.kt`.
  `Engine.GameEngine.GetPlayerByUsername` states only what is visible: the
  result is some registered player with that username, or null when there is
  none.
- Engine.GameEngine.GetPlayerByUsername: does not say which player is chosen
  when several have the username, because the source of that method is not
  available.
- SHA-256 (`PlayerRepository.kt:247-251`) is a foreign `MessageDigest` call. It
  is the uninterpreted function `hash`, so the model assumes no property of it
  (not even injectivity).
- Exposed transactions, HikariCP and Flyway (`Database.kt:149-206`) are
  database plumbing. A database the model sees is either up or down for a whole
  operation, so a failure part-way through one transaction is not modelled.
  Because of this, `LOGIN_FAILED:Could not load player data` cannot be reached
  in the model: authentication and load see the same state.
- `findItemsByName` (`ItemRepository.kt:63-76`) is not modelled. Its result
  depends on the database's `LIKE` and case semantics: the pattern is lowercased
  but the column is not.
- Floating-point skill experience and item weight are carried as `real` values
  and never computed with.
- `Skill` is not shown in the source. Its defaults, level 1 and experience 0.0,
  are taken from the skills table's column defaults (`Database.kt:31-32`).
- Rows returned by `all()`, `find { }` and `firstOrNull()` come without an
  `ORDER BY` in the source. The model returns them in id order, one of the
  orders a database may produce.
- WorldStore.WorldRepository.FindRegionByCoordinates: returns the lowest-id
  match, while the source's `firstOrNull` returns whichever row the database
  yields first.
- Skill and inventory rows are keyed by (player, skill id) and (player, slot),
  not by their serial row id. The source never creates two rows for the same
  pair.
- The inventory size is not shown in the source, so it is the parameter
  `inventorySize`.
- 32-bit `Int` wrap-around of the serial id counters is not modelled: ids are
  unbounded integers. Coordinates only ever receive values that `toInt`
  accepted, and those are within the `Int` range.
- `toInt` is modelled for ASCII digits only. Kotlin's `toInt` also accepts
  other Unicode decimal digits.
- Server.HandleLogout: states the stored rows only when the player's id names
  an existing row and the database is up. Otherwise `SavePlayer`'s own contract
  describes the save.
- Server.OnClose: in the saved case states only the player row; the skill and
  inventory rows follow from `SavePlayer`'s contract.
- Server.HandleMessage: the register and login success cases state the replies,
  the authenticated row and the new id, but not the stored tables. The full new
  state is in `Server.HandleRegister` and `Server.HandleLogin`.
- Server.OnFrame: states the missing-session, move, logout and login-success
  cases only. The other requests follow from `Server.HandleMessage`.
- PlayerStore.PlayerRepository.SaveThenLoad: states the username only for a
  player saved without an id. A player that already had a row keeps the row's
  stored username, whatever its in-memory username is.
- WorldStore.WorldRepository.DeleteRegion: the refusal of a region that an
  object still references comes from the foreign key at `Database.kt:72`. That
  key has no cascading delete, so the model assumes the database's default
  restrict behaviour.
- Everything under `client/`, and the database and migration tests, are
  outside this model.

## Findings

| source | as written | input that shows it | evidently intended | confidence | as-written member | corrected member |
|---|---|---|---|---|---|---|
| server/src/main/kotlin/com/example/rsps/Main.kt:50-63 | every frame of a connection goes to the `player` object created when the connection opened. A successful `LOGIN` registers a different, loaded player under the session (`Main.kt:127`) and never switches to it. | on one connection, for an existing account: `LOGIN:u:p`, then `MOVE:a,b`, then `LOGOUT`. The move changes only the anonymous player. The logged-in player stays at x = 3222, which is what the tick sends. The logout gets no reply because the anonymous player has no id. | frames after a login act on the player registered under the session id. This is what the close block already does at `Main.kt:70`, and what the replacement at `Main.kt:127` is for. | not executed; likely | Server.CapturedPlayerScenario | Server.SessionLookupScenario |

`Server.OnFrame` is the corrected routing: it looks up the session's current
player before each frame. The corrected scenario is built on it.
