/** The engine of `game/GameEngine.kt`: a session-id to player registry, the
    running flag, and one iteration of the fixed-rate loop as a sequential step. */
module Engine {
  import opened Nullable
  import opened Players

  /** Length of a tick in milliseconds. */
  const TICK_RATE_MS: int := 600

  /** How long the loop sleeps after a tick that took `elapsed` milliseconds:
      the rest of the period, and nothing once the period is used up. */
  function SleepTime(elapsed: int): (ms: int)
    ensures ms >= 0
    ensures elapsed <= TICK_RATE_MS ==> elapsed + ms == TICK_RATE_MS
    ensures elapsed >= TICK_RATE_MS ==> ms == 0
  {
    if TICK_RATE_MS - elapsed < 0 then 0 else TICK_RATE_MS - elapsed
  }

  /** Whether the "tick took longer than tick rate" warning is logged. */
  predicate Overran(elapsed: int) {
    elapsed > TICK_RATE_MS
  }

  /** After an overrun the loop does not sleep; without one, tick and sleep
      together fill exactly one period; and a tick of exactly one period is the
      only one that neither warns nor sleeps. */
  lemma OverranMeansNoSleep(elapsed: int)
    ensures Overran(elapsed) ==> SleepTime(elapsed) == 0
    ensures !Overran(elapsed) ==> elapsed + SleepTime(elapsed) == TICK_RATE_MS
    ensures SleepTime(elapsed) == 0 && !Overran(elapsed) <==> elapsed == TICK_RATE_MS
  {
  }

  /** Where one player stands while `sendUpdates` runs over the registry:
      before its turn nothing of it has changed; after it, the flag stays set
      exactly when a pending write failed. */
  ghost predicate SendOutcome(p: Player, k: string, sent: map<string, string>, flagBefore: bool,
                              closed: set<nat>, done: bool)
    reads p`needsPositionUpdate, p`session, p`x, p`y, p`z
  {
    if done then
      && p.needsPositionUpdate == (flagBefore && !p.CanDeliver(closed))
      && (k in sent <==> flagBefore && p.CanDeliver(closed))
      && (k in sent ==> sent[k] == PositionLine(p.x, p.y, p.z))
    else p.needsPositionUpdate == flagBefore && k !in sent
  }

  /** The sessions some events are about. */
  ghost function SessionsOf(events: seq<LoopEvent>): set<string>
    decreases |events|
  {
    if events == [] then {} else SessionsOf(events[..|events| - 1]) + {events[|events| - 1].sessionId}
  }

  /** A session is among those of some events iff one of the events is about it. */
  lemma {:induction false} SessionsOfMember(events: seq<LoopEvent>, k: string)
    ensures k in SessionsOf(events) <==> exists i :: 0 <= i < |events| && events[i].sessionId == k
    decreases |events|
  {
    if events != [] {
      var front := events[..|events| - 1];
      SessionsOfMember(front, k);
      if k in SessionsOf(front) {
        var i :| 0 <= i < |front| && front[i].sessionId == k;
        assert events[i].sessionId == k;
      }
      if i :| 0 <= i < |events| && events[i].sessionId == k {
        if i < |front| {
          assert front[i].sessionId == k;
        }
      }
    }
  }

  /** No session is named by two of the events. */
  ghost predicate NoRepeats(events: seq<LoopEvent>)
    decreases |events|
  {
    events == [] ||
    (NoRepeats(events[..|events| - 1]) && events[|events| - 1].sessionId !in SessionsOf(events[..|events| - 1]))
  }

  /** Each of the events is a `call`. */
  ghost predicate AllCalls(events: seq<LoopEvent>, call: LoopCall)
    decreases |events|
  {
    events == [] || (AllCalls(events[..|events| - 1], call) && events[|events| - 1].call == call)
  }

  /** The call of any one event of `AllCalls`. */
  lemma {:induction false} AllCallsAt(events: seq<LoopEvent>, call: LoopCall, i: int)
    requires AllCalls(events, call) && 0 <= i < |events|
    ensures events[i].call == call
    decreases |events|
  {
    if i < |events| - 1 {
      var front := events[..|events| - 1];
      AllCallsAt(front, call, i);
      assert events[i] == front[i];
    }
  }

  /** `events` are one `call` on each session of `keys`, in some order. */
  ghost predicate OneCallEach(events: seq<LoopEvent>, keys: set<string>, call: LoopCall) {
    SessionsOf(events) == keys && NoRepeats(events) && AllCalls(events, call)
  }

  /** The events of one tick over the sessions `keys`: first one `update` on
      each session, then one `sendUpdates` on each. */
  ghost predicate TwoPhase(events: seq<LoopEvent>, keys: set<string>) {
    exists n :: 0 <= n <= |events| &&
      OneCallEach(events[..n], keys, UpdateCalled) && OneCallEach(events[n..], keys, SendUpdatesCalled)
  }

  /** In a two-phase tick every update comes before every send, whichever
      players they are on. */
  lemma TwoPhaseOrder(events: seq<LoopEvent>, keys: set<string>)
    requires TwoPhase(events, keys)
    ensures forall i, j ::
              0 <= i < |events| && 0 <= j < |events| && events[i].call == UpdateCalled && events[j].call == SendUpdatesCalled
              ==> i < j
  {
    var n :| 0 <= n <= |events| &&
      OneCallEach(events[..n], keys, UpdateCalled) && OneCallEach(events[n..], keys, SendUpdatesCalled);
    forall i, j | 0 <= i < |events| && 0 <= j < |events| && events[i].call == UpdateCalled && events[j].call == SendUpdatesCalled
      ensures i < j
    {
      UpdateBeforeSplit(events, keys, n, i);
      SendAfterSplit(events, keys, n, j);
    }
  }

  /** An update in a two-phase tick lies before the split. */
  lemma UpdateBeforeSplit(events: seq<LoopEvent>, keys: set<string>, n: int, i: int)
    requires 0 <= n <= |events| && OneCallEach(events[n..], keys, SendUpdatesCalled)
    requires 0 <= i < |events| && events[i].call == UpdateCalled
    ensures i < n
  {
    OneCallAt(events[n..], keys, SendUpdatesCalled, i - n);
  }

  /** A send in a two-phase tick lies after the split. */
  lemma SendAfterSplit(events: seq<LoopEvent>, keys: set<string>, n: int, j: int)
    requires 0 <= n <= |events| && OneCallEach(events[..n], keys, UpdateCalled)
    requires 0 <= j < |events| && events[j].call == SendUpdatesCalled
    ensures n <= j
  {
    OneCallAt(events[..n], keys, UpdateCalled, j);
  }

  /** The call of one event of `OneCallEach`. */
  lemma OneCallAt(events: seq<LoopEvent>, keys: set<string>, call: LoopCall, i: int)
    ensures OneCallEach(events, keys, call) && 0 <= i < |events| ==> events[i].call == call
  {
    if OneCallEach(events, keys, call) && 0 <= i < |events| {
      AllCallsAt(events, call, i);
    }
  }

  /** In a two-phase tick every session of `keys` gets its update and its send. */
  lemma TwoPhaseCoversSessions(events: seq<LoopEvent>, keys: set<string>, k: string)
    requires TwoPhase(events, keys) && k in keys
    ensures LoopEvent(k, UpdateCalled) in events && LoopEvent(k, SendUpdatesCalled) in events
  {
    var n :| 0 <= n <= |events| &&
      OneCallEach(events[..n], keys, UpdateCalled) && OneCallEach(events[n..], keys, SendUpdatesCalled);
    var updates, sends := events[..n], events[n..];
    SessionsOfMember(updates, k);
    SessionsOfMember(sends, k);
    var i :| 0 <= i < |updates| && updates[i].sessionId == k;
    var j :| 0 <= j < |sends| && sends[j].sessionId == k;
    OneCallAt(updates, keys, UpdateCalled, i);
    OneCallAt(sends, keys, SendUpdatesCalled, j);
    assert updates[i] == LoopEvent(k, UpdateCalled) && events[i] == updates[i];
    assert sends[j] == LoopEvent(k, SendUpdatesCalled) && events[n + j] == sends[j];
  }

  /** Updating and sending player by player is not a two-phase tick once there
      are two players: wherever the phases are split, a send falls among the
      updates or an update among the sends. */
  lemma InterleavedIsNotTwoPhase(a: string, b: string)
    requires a != b
    ensures !TwoPhase([LoopEvent(a, UpdateCalled), LoopEvent(a, SendUpdatesCalled),
                       LoopEvent(b, UpdateCalled), LoopEvent(b, SendUpdatesCalled)], {a, b})
  {
    var events := [LoopEvent(a, UpdateCalled), LoopEvent(a, SendUpdatesCalled),
                   LoopEvent(b, UpdateCalled), LoopEvent(b, SendUpdatesCalled)];
    forall n | 0 <= n <= |events|
      ensures !(OneCallEach(events[..n], {a, b}, UpdateCalled) && OneCallEach(events[n..], {a, b}, SendUpdatesCalled))
    {
      if n >= 2 {
        OneCallAt(events[..n], {a, b}, UpdateCalled, 1);
        assert events[..n][1].call == SendUpdatesCalled;
      } else {
        OneCallAt(events[n..], {a, b}, SendUpdatesCalled, 2 - n);
        assert events[n..][2 - n].call == UpdateCalled;
      }
    }
  }

  /** Appending one more call on a session not yet called keeps one call each. */
  lemma OneCallEachStep(events: seq<LoopEvent>, keys: set<string>, k: string, call: LoopCall)
    requires OneCallEach(events, keys, call) && k !in keys
    ensures OneCallEach(events + [LoopEvent(k, call)], keys + {k}, call)
  {
    var longer := events + [LoopEvent(k, call)];
    assert longer[..|longer| - 1] == events;
  }

  class GameEngine {
    var isRunning: bool
    var players: map<string, Player>

    /** The call log shared by the players of this engine. */
    ghost const trace: Trace

    /** Every player is registered under its own session id, so distinct
        entries hold distinct players, and logs its calls to the engine's log. */
    ghost predicate Valid()
      reads this, players.Values`sessionId
    {
      forall k :: k in players ==> players[k].sessionId == k && players[k].trace == trace
    }

    constructor (ghost trace: Trace)
      ensures Valid() && !isRunning && players == map[] && this.trace == trace
    {
      isRunning := false;
      players := map[];
      this.trace := trace;
    }

    /** Sets the flag; a loop is launched only on the false-to-true transition. */
    method Start() returns (launched: bool)
      modifies this`isRunning
      ensures isRunning
      ensures launched == !old(isRunning)
    {
      launched := !isRunning;
      if !isRunning {
        isRunning := true;
      }
    }

    /** Clears the flag; `stopped` says whether it was set (and the stop logged). */
    method Stop() returns (stopped: bool)
      modifies this`isRunning
      ensures !isRunning
      ensures stopped == old(isRunning)
    {
      stopped := isRunning;
      if isRunning {
        isRunning := false;
      }
    }

    /** Registers a player under its session id, overwriting any previous entry. */
    method AddPlayer(player: Player)
      requires Valid() && player.trace == trace
      modifies this`players
      ensures Valid()
      ensures players == old(players)[player.sessionId := player]
      ensures GetPlayer(player.sessionId) == player
      ensures forall k :: k in old(players) && k != player.sessionId ==> k in players && players[k] == old(players)[k]
    {
      players := players[player.sessionId := player];
    }

    /** Unregisters a session; removing an absent id changes nothing. */
    method RemovePlayer(sessionId: string)
      requires Valid()
      modifies this`players
      ensures Valid()
      ensures players == old(players) - {sessionId}
      ensures GetPlayer(sessionId) == null
      ensures sessionId !in old(players) ==> players == old(players)
    {
      players := players - {sessionId};
    }

    /** The player registered under a session id, or null. */
    function GetPlayer(sessionId: string): (p: Player?)
      reads this
      ensures p != null <==> sessionId in players
      ensures p != null ==> p == players[sessionId]
    {
      if sessionId in players then players[sessionId] else null
    }

    /** Whether some registered player carries that username. */
    predicate LoggedIn(username: string)
      reads this, players.Values`username
    {
      exists k :: k in players && players[k].username == Some(username)
    }

    /** Some registered player with that username, or null if there is none. */
    method GetPlayerByUsername(username: string) returns (p: Player?)
      ensures p != null <==> LoggedIn(username)
      ensures p != null ==> p in players.Values && p.username == Some(username)
    {
      p := null;
      if k :| k in players && players[k].username == Some(username) {
        p := players[k];
      }
    }

    /** Removes the old player's entry, then registers the new one. */
    method ReplacePlayer(oldPlayer: Player, newPlayer: Player)
      requires Valid() && newPlayer.trace == trace
      modifies this`players
      ensures Valid()
      ensures players == (old(players) - {oldPlayer.sessionId})[newPlayer.sessionId := newPlayer]
      ensures oldPlayer.sessionId == newPlayer.sessionId ==> players == old(players)[newPlayer.sessionId := newPlayer]
      ensures GetPlayer(newPlayer.sessionId) == newPlayer
      ensures oldPlayer.sessionId != newPlayer.sessionId ==> oldPlayer.sessionId !in players
      ensures forall k :: k in old(players) && k != oldPlayer.sessionId && k != newPlayer.sessionId ==>
                k in players && players[k] == old(players)[k]
    {
      RemovePlayer(oldPlayer.sessionId);
      AddPlayer(newPlayer);
    }

    /** Runs `update` on every registered player, once each. */
    method UpdateAll()
      requires Valid()
      modifies trace`events
      ensures Valid()
      ensures old(trace.events) <= trace.events
      ensures OneCallEach(trace.events[|old(trace.events)|..], players.Keys, UpdateCalled)
    {
      ghost var added: seq<LoopEvent> := [];
      ghost var done: set<string> := {};
      var todo := players.Keys;
      while todo != {}
        invariant done + todo == players.Keys && done !! todo
        invariant trace.events == old(trace.events) + added
        invariant OneCallEach(added, done, UpdateCalled)
        decreases todo
      {
        var k :| k in todo;
        players[k].Update();
        OneCallEachStep(added, done, k, UpdateCalled);
        added := added + [LoopEvent(k, UpdateCalled)];
        done := done + {k};
        todo := todo - {k};
      }
      assert trace.events[|old(trace.events)|..] == added;
    }

    /** One turn of the send loop: `sendUpdates` on the player registered
        under `k`, whose line, if any, is added to `sent`; `flags` holds every
        player's flag as it was before the loop, `done` the sessions already
        served. */
    method SendOne(k: string, closed: set<nat>, sent0: map<string, string>,
                   ghost flags: map<string, bool>, ghost done: set<string>) returns (sent: map<string, string>)
      requires Valid() && k in players && k !in done
      requires forall j :: j in players ==> j in flags
      requires forall j :: j in sent0 ==> j in players
      requires forall j :: j in players ==> SendOutcome(players[j], j, sent0, flags[j], closed, j in done)
      modifies players.Values`needsPositionUpdate, trace`events
      ensures Valid()
      ensures trace.events == old(trace.events) + [LoopEvent(k, SendUpdatesCalled)]
      ensures forall j :: j in sent ==> j in players
      ensures forall j :: j in players ==> SendOutcome(players[j], j, sent, flags[j], closed, j in done + {k})
    {
      var p := players[k];
      assert forall j :: j in players && j != k ==> players[j] != p;
      var line := p.SendUpdates(closed);
      sent := sent0;
      if line.Some? {
        sent := sent[k := line.value];
      }
    }

    /** Runs `sendUpdates` on every registered player, once each; `sent` maps
        each session to the line written to it. */
    method SendAll(closed: set<nat>) returns (sent: map<string, string>)
      requires Valid()
      modifies players.Values`needsPositionUpdate, trace`events
      ensures Valid()
      ensures old(trace.events) <= trace.events
      ensures OneCallEach(trace.events[|old(trace.events)|..], players.Keys, SendUpdatesCalled)
      ensures forall k :: k in players ==>
                players[k].needsPositionUpdate == (old(players[k].needsPositionUpdate) && !players[k].CanDeliver(closed))
      ensures forall k :: k in sent <==> k in players && old(players[k].needsPositionUpdate) && players[k].CanDeliver(closed)
      ensures forall k :: k in sent ==> sent[k] == PositionLine(players[k].x, players[k].y, players[k].z)
    {
      sent := map[];
      ghost var flags := map k | k in players :: players[k].needsPositionUpdate;
      ghost var added: seq<LoopEvent> := [];
      ghost var done: set<string> := {};
      var todo := players.Keys;
      while todo != {}
        invariant done + todo == players.Keys && done !! todo
        invariant trace.events == old(trace.events) + added
        invariant OneCallEach(added, done, SendUpdatesCalled)
        invariant forall k :: k in sent ==> k in players
        invariant forall k :: k in players ==>
                    SendOutcome(players[k], k, sent, flags[k], closed, k in done)
        decreases todo
      {
        var k :| k in todo;
        OneCallEachStep(added, done, k, SendUpdatesCalled);
        sent := SendOne(k, closed, sent, flags, done);
        added := added + [LoopEvent(k, SendUpdatesCalled)];
        done := done + {k};
        todo := todo - {k};
      }
      assert done == players.Keys;
      assert trace.events[|old(trace.events)|..] == added;
    }

    /** One tick: `update` runs once on every registered player, and only then
        `sendUpdates` once on every player, so the log grows by a two-phase
        tick over the registered sessions. `sent` maps each session to the
        line written to it. */
    method Tick(closed: set<nat>) returns (sent: map<string, string>)
      requires Valid()
      modifies players.Values`needsPositionUpdate, trace`events
      ensures Valid()
      ensures old(trace.events) <= trace.events
      ensures TwoPhase(trace.events[|old(trace.events)|..], players.Keys)
      ensures forall k :: k in players ==>
                players[k].needsPositionUpdate == (old(players[k].needsPositionUpdate) && !players[k].CanDeliver(closed))
      ensures forall k :: k in sent <==> k in players && old(players[k].needsPositionUpdate) && players[k].CanDeliver(closed)
      ensures forall k :: k in sent ==> sent[k] == PositionLine(players[k].x, players[k].y, players[k].z)
    {
      ghost var before := trace.events;
      UpdateAll();
      ghost var updated := trace.events;
      sent := SendAll(closed);
      ghost var tick := trace.events[|before|..];
      ghost var n := |updated| - |before|;
      assert tick[..n] == updated[|before|..];
      assert tick[n..] == trace.events[|updated|..];
    }

    /** One iteration of the loop: if the flag is still set, run a tick (which
        cannot fail: every write error is caught inside `sendUpdates`), then
        decide how long to sleep and whether to warn. A cleared flag ends the
        loop before a new tick starts. */
    method RunIteration(elapsed: int, closed: set<nat>)
      returns (ticked: bool, sleepMs: int, warned: bool, sent: map<string, string>)
      requires Valid()
      modifies players.Values`needsPositionUpdate, trace`events
      ensures Valid()
      ensures ticked == isRunning
      ensures !ticked ==> sent == map[] && sleepMs == 0 && !warned
      ensures !ticked ==> forall k :: k in players ==>
                players[k].needsPositionUpdate == old(players[k].needsPositionUpdate)
      ensures !ticked ==> trace.events == old(trace.events)
      ensures ticked ==> old(trace.events) <= trace.events && TwoPhase(trace.events[|old(trace.events)|..], players.Keys)
      ensures ticked ==> sleepMs == SleepTime(elapsed) && warned == Overran(elapsed)
      ensures ticked ==> forall k :: k in players ==>
                players[k].needsPositionUpdate == (old(players[k].needsPositionUpdate) && !players[k].CanDeliver(closed))
      ensures ticked ==> forall k :: k in sent <==> k in players && old(players[k].needsPositionUpdate) && players[k].CanDeliver(closed)
    {
      ticked, sleepMs, warned, sent := false, 0, false, map[];
      if isRunning {
        ticked := true;
        sent := Tick(closed);
        sleepMs := SleepTime(elapsed);
        warned := Overran(elapsed);
      }
    }
  }
}
