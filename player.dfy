/** The in-memory player of `game/Player.kt`: a position, the "needs position
    update" flag and the `MOVE:` command, plus the identity, health, skills and
    inventory members that the dispatcher and the player repository use. */
module Players {
  import opened Nullable
  import opened Text

  /** Spawn point of a fresh player (Player.kt), also the column defaults of the players table. */
  const START_X: int := 3222
  const START_Y: int := 3222
  const START_Z: int := 0
  /** Column default of `health` in the players table. */
  const DEFAULT_HEALTH: int := 100

  /** A skill: its id, level and experience. Experience is a Kotlin `Double`;
      nothing here computes with it. */
  datatype Skill = Skill(id: int, level: int, experience: real)

  /** One occupied inventory slot. */
  datatype InventoryItem = InventoryItem(itemId: int, amount: int)

  /** A call the game loop makes on a player. */
  datatype LoopCall = UpdateCalled | SendUpdatesCalled

  /** One call on one player, recorded under the player's session id at the time of the call. */
  datatype LoopEvent = LoopEvent(sessionId: string, call: LoopCall)

  /** The log of the `update` and `sendUpdates` calls made on the players of
      one engine, oldest first. All those players share one log, so the log
      orders calls on different players. It exists only for the proofs. */
  class Trace {
    ghost var events: seq<LoopEvent>

    constructor ()
      ensures events == []
    {
      events := [];
    }
  }

  /** The text `sendUpdates` writes for a position: `POS:x,y,z`. */
  function PositionLine(x: int, y: int, z: int): string {
    "POS:" + IntToString(x) + "," + IntToString(y) + "," + IntToString(z)
  }

  /** Three fields joined by a separator none of them holds split back apart. */
  lemma SplitThree(a: string, b: string, c: string, sep: char)
    requires sep !in a && sep !in b && sep !in c
    ensures Split(a + [sep] + (b + [sep] + c), sep) == [a, b, c]
  {
    SplitAtFirstSeparator(a, sep, b + [sep] + c);
    SplitAtFirstSeparator(b, sep, c);
    SplitWithoutSeparator(c, sep);
  }

  /** A position line starts with `POS:` and the rest splits on commas into
      exactly three fields, which parse back to the coordinates. */
  lemma PositionLineFields(x: int, y: int, z: int)
    requires IsInt32(x) && IsInt32(y) && IsInt32(z)
    ensures "POS:" <= PositionLine(x, y, z)
    ensures Split(PositionLine(x, y, z)[4..], ',') == [IntToString(x), IntToString(y), IntToString(z)]
    ensures ParseInt(IntToString(x)) == Some(x)
    ensures ParseInt(IntToString(y)) == Some(y)
    ensures ParseInt(IntToString(z)) == Some(z)
  {
    var line := PositionLine(x, y, z);
    var fx, fy, fz := IntToString(x), IntToString(y), IntToString(z);
    assert line[4..] == fx + [','] + (fy + [','] + fz);
    SplitThree(fx, fy, fz, ',');
    ParseIntToString(x);
    ParseIntToString(y);
    ParseIntToString(z);
  }

  /** What `handleMessage` makes of a message: `MOVE:` followed by at least two
      comma-separated fields, the first two of which must both be `Int`s. */
  function ParseMove(message: string): (r: Option<(int, int)>)
    ensures !("MOVE:" <= message) ==> r.None?
    ensures r.Some? ==> IsInt32(r.value.0) && IsInt32(r.value.1)
  {
    if !("MOVE:" <= message) then None
    else
      var parts := Split(message[5..], ',');
      if |parts| < 2 then None
      else
        match (ParseInt(parts[0]), ParseInt(parts[1]))
        case (Some(a), Some(b)) => Some((a, b))
        case _ => None
  }

  /** A move reads exactly its first two fields: it succeeds iff both parse,
      whatever further fields follow. */
  lemma MoveReadsFirstTwoFields(f0: string, f1: string, rest: string)
    requires ',' !in f0 && ',' !in f1
    requires rest == [] || rest[0] == ','
    ensures ParseMove("MOVE:" + f0 + "," + f1 + rest)
         == if ParseInt(f0).Some? && ParseInt(f1).Some? then Some((ParseInt(f0).value, ParseInt(f1).value)) else None
  {
    var m := "MOVE:" + f0 + "," + f1 + rest;
    assert m[5..] == f0 + [','] + (f1 + rest);
    SplitAtFirstSeparator(f0, ',', f1 + rest);
    if rest == [] {
      assert f1 + rest == f1;
      SplitWithoutSeparator(f1, ',');
    } else {
      assert f1 + rest == f1 + [','] + rest[1..];
      SplitAtFirstSeparator(f1, ',', rest[1..]);
    }
  }

  /** `MOVE:` with a single field (no comma) is ignored. */
  lemma MoveNeedsTwoFields(f: string)
    requires ',' !in f
    ensures ParseMove("MOVE:" + f).None?
  {
    assert ("MOVE:" + f)[5..] == f;
    SplitWithoutSeparator(f, ',');
  }

  /** The command a client sends to move to (a, b) is understood as exactly that. */
  lemma MoveCommandRoundTrip(a: int, b: int)
    requires IsInt32(a) && IsInt32(b)
    ensures ParseMove("MOVE:" + IntToString(a) + "," + IntToString(b)) == Some((a, b))
  {
    ParseIntToString(a);
    ParseIntToString(b);
    MoveReadsFirstTwoFields(IntToString(a), IntToString(b), "");
    assert "MOVE:" + IntToString(a) + "," + IntToString(b) + "" == "MOVE:" + IntToString(a) + "," + IntToString(b);
  }

  class Player {
    /** The session this player is registered under in the engine. */
    var sessionId: string
    /** The connection updates are written to; `None` for a player loaded from
        the database and not yet attached to a connection. */
    var session: Option<nat>

    var x: int
    var y: int
    var z: int
    var needsPositionUpdate: bool

    /** Database row id, `None` until the player is first saved. */
    var id: Option<int>
    var username: Option<string>
    var health: int
    var skills: map<int, Skill>
    /** Fixed-size slots; `None` is an empty slot. */
    const inventory: array<Option<InventoryItem>>
    /** The log that this player's `update` and `sendUpdates` calls go to. */
    ghost const trace: Trace

    constructor (sessionId: string, session: Option<nat>, inventorySize: nat, ghost trace: Trace)
      ensures this.sessionId == sessionId && this.session == session
      ensures x == START_X && y == START_Y && z == START_Z && !needsPositionUpdate
      ensures id.None? && username.None? && health == DEFAULT_HEALTH && skills == map[]
      ensures fresh(inventory) && inventory.Length == inventorySize
      ensures forall i :: 0 <= i < inventory.Length ==> inventory[i].None?
      ensures this.trace == trace
    {
      this.sessionId := sessionId;
      this.session := session;
      x, y, z := START_X, START_Y, START_Z;
      needsPositionUpdate := false;
      id, username := None, None;
      health := DEFAULT_HEALTH;
      skills := map[];
      inventory := new Option<InventoryItem>[inventorySize](_ => None);
      this.trace := trace;
    }

    /** Whether a frame written to this player's connection is accepted, given
        the connections whose channels are closed. */
    predicate CanDeliver(closed: set<nat>)
      reads this`session
    {
      session.Some? && session.value !in closed
    }

    /** Points the player at a live connection (used after loading it from the database). */
    method AttachSession(newSessionId: string, newSession: Option<nat>)
      modifies this`sessionId, this`session
      ensures sessionId == newSessionId && session == newSession
    {
      sessionId := newSessionId;
      session := newSession;
    }

    /** The per-tick update. It does nothing yet: only the call is logged. */
    method Update()
      modifies trace`events
      ensures trace.events == old(trace.events) + [LoopEvent(sessionId, UpdateCalled)]
    {
      trace.events := trace.events + [LoopEvent(sessionId, UpdateCalled)];
    }

    /** Writes `POS:x,y,z` when the flag is set and clears the flag once the
        write went through; a failed write is swallowed and leaves the flag set,
        so the position is sent again next time. */
    method SendUpdates(closed: set<nat>) returns (sent: Option<string>)
      modifies this`needsPositionUpdate, trace`events
      ensures trace.events == old(trace.events) + [LoopEvent(sessionId, SendUpdatesCalled)]
      ensures old(needsPositionUpdate) && CanDeliver(closed) ==>
                sent == Some(PositionLine(x, y, z)) && !needsPositionUpdate
      ensures !(old(needsPositionUpdate) && CanDeliver(closed)) ==>
                sent.None? && needsPositionUpdate == old(needsPositionUpdate)
    {
      trace.events := trace.events + [LoopEvent(sessionId, SendUpdatesCalled)];
      sent := None;
      if needsPositionUpdate {
        if CanDeliver(closed) {
          sent := Some(PositionLine(x, y, z));
          needsPositionUpdate := false;
        }
      }
    }

    /** A gameplay message: a well-formed `MOVE:a,b` moves the player to (a, b)
        on its plane and marks the position for sending; anything else, or a
        move with a field that is not an `Int`, changes nothing. */
    method HandleMessage(message: string)
      modifies this`x, this`y, this`needsPositionUpdate
      ensures ParseMove(message).Some? ==>
                x == ParseMove(message).value.0 && y == ParseMove(message).value.1 && needsPositionUpdate
      ensures ParseMove(message).None? ==>
                x == old(x) && y == old(y) && needsPositionUpdate == old(needsPositionUpdate)
    {
      if "MOVE:" <= message {
        var parts := Split(message[5..], ',');
        if |parts| >= 2 {
          var newX := ParseInt(parts[0]);
          var newY := ParseInt(parts[1]);
          if newX.Some? && newY.Some? {
            x := newX.value;
            y := newY.value;
            needsPositionUpdate := true;
          }
        }
      }
    }
  }
}
