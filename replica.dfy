/** The client's replica of the board (client.go): one `Player` per id known
    to it, each with its strokes and one render cache per stroke, updated by
    the events the server forwards (`CHandleReceivedEvents`). */
module Replica {
  import opened Events

  /** raylib's `RenderTexture2D`: the zero value `NewCache` stores, or one
      loaded from the GPU. */
  datatype Texture = Blank | Loaded(handle: int)

  /** `Cache` (client.go): the render target of one stroke. */
  class Cache {
    var drawing: bool
    var empty: bool
    var texture: Texture

    /** `NewCache`: drawing into, nothing rendered yet. */
    constructor ()
      ensures drawing && empty && texture == Blank
    {
      drawing := true;
      empty := true;
      texture := Blank;
    }
  }

  /** What a `Player` holds, with its caches counted. */
  datatype PlayerValue = PlayerValue(id: Int32, drawing: bool, justJoined: bool, scribbles: seq<Scribble>, caches: nat)

  /** One cache per stroke. */
  predicate Balanced(p: PlayerValue)
  {
    |p.scribbles| == p.caches
  }

  /** The per-player cases of `CHandleReceivedEvents`. `Done` on a player with
      no cache is taken as a plain `Done` here; the code as written panics
      there (see `DoneAsWritten`). */
  function PlayerStep(p: PlayerValue, e: Event): (r: PlayerValue)
    requires IsSessionEvent(e)
    // Only the strokes, their caches and the drawing flag change.
    ensures r.id == p.id && r.justJoined == p.justJoined
    ensures r.drawing == (e.inner.Started? || e.inner.Redo? || (p.drawing && !e.inner.Done?))
    ensures |r.scribbles| == |p.scribbles| + (if e.inner.Started? || e.inner.Redo? then 1 else 0)
      - (if e.inner.Undo? && |p.scribbles| > 0 then 1 else 0)
  {
    match e.inner
    case Started => p.(drawing := true, scribbles := Append(p.scribbles, []), caches := p.caches + 1)
    case Done => p.(drawing := false)
    case Drawing(px) => p.(scribbles := AppendToLast(p.scribbles, px))
    case Undo => p.(scribbles := DropLast(p.scribbles), caches := if p.caches > 0 then p.caches - 1 else 0)
    case Redo(px) => p.(scribbles := Append(p.scribbles, px), caches := p.caches + 1, drawing := true)
  }

  /** `Done` as written: `CachedScribbles[len(CachedScribbles)-1]` with no
      cache is an index out of range, which ends the client process. */
  function DoneAsWritten(p: PlayerValue): (r: Option<PlayerValue>)
    ensures r.None? <==> p.caches == 0
    ensures r.Some? ==> r.value == PlayerStep(p, Event(p.id, "done", Done))
  {
    if p.caches == 0 then None else Some(p.(drawing := false))
  }

  /** The player a `Joined` for another id creates: the event's flag and
      strokes, marked just joined, one cache per stroke. */
  function JoinedPlayer(id: Int32, drawing: bool, scribbles: seq<Scribble>): (p: PlayerValue)
    ensures Balanced(p) && p.justJoined
  {
    PlayerValue(id, drawing, true, scribbles, |scribbles|)
  }

  /** The `changed` flag after a per-player event: `Started` leaves it,
      `Done` clears it, the others set it. */
  function ChangedAfter(e: Event, changed: bool): bool
  {
    if e.inner.Started? then changed else !e.inner.Done?
  }

  /** `Player` (client.go). */
  class Player {
    var id: Int32
    var drawing: bool
    var justJoined: bool
    var scribbles: seq<Scribble>
    var cached: seq<Cache>

    function Value(): PlayerValue
      reads this
    {
      PlayerValue(id, drawing, justJoined, scribbles, |cached|)
    }

    /** `NewPlayer(id)`: the given id, both flags off, no strokes, no caches. */
    constructor (id: Int32)
      ensures Value() == PlayerValue(id, false, false, [], 0)
    {
      this.id := id;
      drawing := false;
      justJoined := false;
      scribbles := [];
      cached := [];
    }

    /** One per-player event, on `players[event.PlayerId]`. A new cache is
        appended for `Started` and `Redo`; `Done` marks the last cache as no
        longer drawn into; `Undo` drops the last cache. */
    method Apply(e: Event)
      requires IsSessionEvent(e)
      modifies this, if e.inner.Done? && |cached| > 0 then {cached[|cached| - 1]} else {}
      ensures Value() == PlayerStep(old(Value()), e)
      ensures e.inner.Started? || e.inner.Redo? ==>
        && cached[..|old(cached)|] == old(cached)
        && fresh(cached[|cached| - 1]) && cached[|cached| - 1].drawing && cached[|cached| - 1].empty
      ensures e.inner.Done? || e.inner.Drawing? ==> cached == old(cached)
      ensures e.inner.Done? && |cached| > 0 ==>
        && !cached[|cached| - 1].drawing
        && cached[|cached| - 1].empty == old(cached[|cached| - 1].empty)
        && cached[|cached| - 1].texture == old(cached[|cached| - 1].texture)
      ensures e.inner.Undo? ==> cached == DropLast(old(cached))
    {
      match e.inner {
        case Started => OpenStroke(e, []);
        case Redo(px) => OpenStroke(e, px);
        case Done => EndStroke(e);
        case Drawing(px) => ExtendStroke(e, px);
        case Undo => DropStroke(e);
      }
    }

    /** `Started` and `Redo`: a new stroke (empty, or the redone pixels) with
        a new cache, and the drawing flag set. */
    method OpenStroke(e: Event, px: Scribble)
      requires (e.inner == Started && px == []) || e.inner == Redo(px)
      modifies this
      ensures Value() == PlayerStep(old(Value()), e)
      ensures cached[..|old(cached)|] == old(cached)
      ensures fresh(cached[|cached| - 1]) && cached[|cached| - 1].drawing && cached[|cached| - 1].empty
    {
      scribbles := Append(scribbles, px);
      var cache := new Cache();
      cached := Append(cached, cache);
      drawing := true;
    }

    /** `Done`: the flag is cleared on the player and on its last cache. */
    method EndStroke(e: Event)
      requires e.inner.Done?
      modifies this`drawing, if |cached| > 0 then {cached[|cached| - 1]} else {}
      ensures Value() == PlayerStep(old(Value()), e)
      ensures |cached| > 0 ==>
        && !cached[|cached| - 1].drawing
        && cached[|cached| - 1].empty == old(cached[|cached| - 1].empty)
        && cached[|cached| - 1].texture == old(cached[|cached| - 1].texture)
    {
      drawing := false;
      if |cached| > 0 {
        cached[|cached| - 1].drawing := false;
      }
    }

    /** `Drawing`: the pixel is appended to the last stroke, if any. */
    method ExtendStroke(e: Event, px: Pixel)
      requires e.inner == Drawing(px)
      modifies this`scribbles
      ensures Value() == PlayerStep(old(Value()), e)
    {
      var maxIndex := |scribbles| - 1;
      if maxIndex >= 0 {
        scribbles := scribbles[maxIndex := Append(scribbles[maxIndex], px)];
        assert scribbles == AppendToLast(old(scribbles), px);
      }
    }

    /** `Undo`: the last stroke and the last cache are dropped, if any. */
    method DropStroke(e: Event)
      requires e.inner.Undo?
      modifies this`scribbles, this`cached
      ensures Value() == PlayerStep(old(Value()), e)
      ensures cached == DropLast(old(cached))
    {
      var maxIndex := |scribbles| - 1;
      if maxIndex >= 0 {
        scribbles := scribbles[..maxIndex];
      }
      maxIndex := |cached| - 1;
      if maxIndex >= 0 {
        cached := cached[..maxIndex];
      }
    }
  }

  /** How a received event ended: handled, or a nil `players[event.PlayerId]`
      dereferenced, which ends the client process. */
  datatype ClientOutcome = Applied | Crashed

  /** The client's globals: the replica map, `me`, the `changed` redraw flag
      and the channel of events to send. */
  class Client {
    var players: map<Int32, Player>
    var me: Player
    var changed: bool
    var outgoing: seq<Event>

    /** The program's initial globals: no players, `me` is `NewPlayer(0)`. */
    constructor ()
      ensures players == map[] && fresh(me) && me.Value() == PlayerValue(0, false, false, [], 0)
      ensures !changed && outgoing == []
    {
      players := map[];
      me := new Player(0);
      changed := false;
      outgoing := [];
    }

    /** `CHandleReceivedEvents`. */
    method HandleReceived(e: Event) returns (outcome: ClientOutcome)
      modifies this
      modifies if e.inner.Pong? then {me} else {}
      modifies if IsSessionEvent(e) && e.playerId in players then {players[e.playerId]} else {}
      modifies if e.inner.Done? && e.playerId in players && |players[e.playerId].cached| > 0
        then {players[e.playerId].cached[|players[e.playerId].cached| - 1]} else {}
      ensures outcome == Crashed <==> IsSessionEvent(e) && e.playerId !in old(players)
      ensures me == old(me)
      ensures e.inner.Pong? ==>
        && me.Value() == old(me.Value()).(id := e.playerId)
        && players == old(players) && changed == old(changed)
        && outgoing == old(outgoing) + [Event(e.playerId, "joined", Joined(0, false, []))]
      ensures e.inner.Joined? ==> JoinedHandled(e, old(players), old(me.id), old(changed)) && outgoing == old(outgoing)
      ensures e.inner.Joined? && e.inner.id != old(me.id) ==>
        && fresh(players[e.inner.id])
        && forall i | 0 <= i < |players[e.inner.id].cached| ::
             && fresh(players[e.inner.id].cached[i])
             && players[e.inner.id].cached[i].drawing && players[e.inner.id].cached[i].empty
             && players[e.inner.id].cached[i].texture == Blank
      ensures e.inner.Left? || e.inner.Ping? ==>
        players == old(players) && changed == old(changed) && outgoing == old(outgoing)
      ensures IsSessionEvent(e) && e.playerId in old(players) ==>
        && players == old(players)
        && players[e.playerId].Value() == PlayerStep(old(players[e.playerId].Value()), e)
        && changed == ChangedAfter(e, old(changed))
        && outgoing == old(outgoing)
      ensures (e.inner.Started? || e.inner.Redo?) && e.playerId in old(players) ==>
        var c := players[e.playerId].cached;
        && c[..|old(players[e.playerId].cached)|] == old(players[e.playerId].cached)
        && fresh(c[|c| - 1]) && c[|c| - 1].drawing && c[|c| - 1].empty
      ensures (e.inner.Done? || e.inner.Drawing?) && e.playerId in old(players) ==>
        players[e.playerId].cached == old(players[e.playerId].cached)
      ensures e.inner.Done? && e.playerId in old(players) && |old(players[e.playerId].cached)| > 0 ==>
        var c := players[e.playerId].cached;
        && !c[|c| - 1].drawing && c[|c| - 1].empty == old(c[|c| - 1].empty)
        && c[|c| - 1].texture == old(c[|c| - 1].texture)
      ensures e.inner.Undo? && e.playerId in old(players) ==>
        players[e.playerId].cached == DropLast(old(players[e.playerId].cached))
      // An event changes only the player it names (and `me` only for `Pong`
      // or when `me` is that player); every other player keeps its value.
      ensures !(e.inner.Pong? || (IsSessionEvent(e) && e.playerId in old(players) && old(players[e.playerId]) == me)) ==>
        me.Value() == old(me.Value())
      ensures forall k | k in old(players) && Untouched(e, k, old(players), old(me)) ::
        k in players && players[k] == old(players[k]) && players[k].Value() == old(players[k].Value())
    {
      outcome := Applied;
      match e.inner {
        case Pong =>
          OnPong(e.playerId);
        case Joined(id, drawing, scribbles) =>
          OnJoined(id, drawing, scribbles);
        case Left =>
        case Ping =>
        case _ =>
          if e.playerId !in players {
            outcome := Crashed;
            return;
          }
          OnPlayerEvent(e);
      }
    }

    /** The `Pong` case: take the id the server gave and ask for the board. */
    method OnPong(id: Int32)
      modifies me, this`outgoing
      ensures me.Value() == old(me.Value()).(id := id)
      ensures outgoing == old(outgoing) + [Event(id, "joined", Joined(0, false, []))]
    {
      me.id := id;
      outgoing := outgoing + [Event(me.id, "joined", Joined(0, false, []))];
    }

    /** The per-player cases: apply the event to the player it names and
        update the redraw flag. */
    method OnPlayerEvent(e: Event)
      requires IsSessionEvent(e) && e.playerId in players
      modifies this`changed, players[e.playerId]
      modifies if e.inner.Done? && |players[e.playerId].cached| > 0
        then {players[e.playerId].cached[|players[e.playerId].cached| - 1]} else {}
      ensures players[e.playerId].Value() == PlayerStep(old(players[e.playerId].Value()), e)
      ensures changed == ChangedAfter(e, old(changed))
      ensures e.inner.Started? || e.inner.Redo? ==>
        var c := players[e.playerId].cached;
        && c[..|old(players[e.playerId].cached)|] == old(players[e.playerId].cached)
        && fresh(c[|c| - 1]) && c[|c| - 1].drawing && c[|c| - 1].empty
      ensures e.inner.Done? || e.inner.Drawing? ==> players[e.playerId].cached == old(players[e.playerId].cached)
      ensures e.inner.Done? && |old(players[e.playerId].cached)| > 0 ==>
        var c := players[e.playerId].cached;
        && !c[|c| - 1].drawing && c[|c| - 1].empty == old(c[|c| - 1].empty)
        && c[|c| - 1].texture == old(c[|c| - 1].texture)
      ensures e.inner.Undo? ==> players[e.playerId].cached == DropLast(old(players[e.playerId].cached))
    {
      players[e.playerId].Apply(e);
      changed := ChangedAfter(e, changed);
    }

    /** Whether `players0[k]` is outside what event `e` may change: the player
        it names, the player a `Joined` rebinds, and `me` for a `Pong`. */
    ghost predicate Untouched(e: Event, k: Int32, players0: map<Int32, Player>, me0: Player)
      requires k in players0
    {
      && !(IsSessionEvent(e) && e.playerId in players0 && players0[e.playerId] == players0[k])
      && !(e.inner.Joined? && e.inner.id == k)
      && !(e.inner.Pong? && players0[k] == me0)
    }

    /** What the `Joined` case leaves: for `me`'s own id, `players[id]` is
        `me` itself and nothing else changes; for another id, a new player
        built from the event, and the redraw flag is set. */
    ghost predicate JoinedHandled(e: Event, players0: map<Int32, Player>, meId: Int32, changed0: bool)
      requires e.inner.Joined?
      reads this, if e.inner.id in players then {players[e.inner.id]} else {}
    {
      var j := e.inner;
      && j.id in players
      && players == players0[j.id := players[j.id]]
      && (j.id == meId ==> players[j.id] == me && changed == changed0)
      && (j.id != meId ==>
            players[j.id].Value() == JoinedPlayer(j.id, j.isDrawing, j.scribbles) && changed)
    }

    /** The `Joined` case: bind `me` under its own id, or create the player
        the event describes with one new cache per stroke. */
    method OnJoined(id: Int32, drawing: bool, scribbles: seq<Scribble>)
      modifies this`players, this`changed
      ensures id in players && players == old(players)[id := players[id]]
      ensures id == me.id ==> players[id] == me && changed == old(changed)
      ensures id != me.id ==>
        && fresh(players[id]) && changed
        && players[id].Value() == JoinedPlayer(id, drawing, scribbles)
        && forall i | 0 <= i < |players[id].cached| ::
             && fresh(players[id].cached[i]) && players[id].cached[i].drawing && players[id].cached[i].empty
             && players[id].cached[i].texture == Blank
    {
      if id == me.id {
        players := players[id := me];
        return;
      }
      var p := new Player(id);
      p.drawing := drawing;
      p.scribbles := scribbles;
      p.justJoined := true;
      var i := 0;
      while i < |scribbles|
        invariant 0 <= i <= |scribbles|
        invariant p.Value() == PlayerValue(id, drawing, true, scribbles, i)
        invariant forall j | 0 <= j < |p.cached| ::
          fresh(p.cached[j]) && p.cached[j].drawing && p.cached[j].empty && p.cached[j].texture == Blank
        modifies p
      {
        var cache := new Cache();
        p.cached := p.cached + [cache];
        i := i + 1;
      }
      players := players[id := p];
      changed := true;
    }
  }

  /** Every per-player event keeps one cache per stroke. */
  lemma PlayerStepBalanced(p: PlayerValue, e: Event)
    requires IsSessionEvent(e) && Balanced(p)
    ensures Balanced(PlayerStep(p, e))
  {
  }

  /** `Started` opens an empty stroke with its cache and sets the flag;
      earlier strokes are kept. */
  lemma StartedOpensStroke(p: PlayerValue, e: Event)
    requires e.inner.Started?
    ensures var r := PlayerStep(p, e);
      r.drawing && r.scribbles == p.scribbles + [[]] && r.caches == p.caches + 1
  {
  }

  /** `Drawing` extends the last stroke when there is one and otherwise
      leaves the strokes as they are. */
  lemma DrawingExtendsLastStroke(p: PlayerValue, e: Event)
    requires e.inner.Drawing?
    ensures var r := PlayerStep(p, e);
      && r.drawing == p.drawing && r.caches == p.caches
      && (p.scribbles == [] ==> r.scribbles == [])
      && (p.scribbles != [] ==>
            var n := |p.scribbles|;
            r.scribbles == p.scribbles[..n - 1] + [p.scribbles[n - 1] + [e.inner.pixel]])
  {
  }

  /** `Undo` drops the last stroke and the last cache when there are any
      and never fails on empty lists; `Redo` appends the carried stroke with a
      cache and sets the flag, so `Undo` after `Redo` gives the strokes back. */
  lemma UndoRedoOnReplica(p: PlayerValue, u: Event, r: Event)
    requires u.inner.Undo? && r.inner.Redo?
    ensures var q := PlayerStep(p, u);
      && (p.scribbles != [] ==> q.scribbles + [p.scribbles[|p.scribbles| - 1]] == p.scribbles)
      && (p.scribbles == [] ==> q.scribbles == [])
      && q.caches == if p.caches > 0 then p.caches - 1 else 0
    ensures var q := PlayerStep(p, r);
      q.drawing && q.scribbles == p.scribbles + [r.inner.pixels] && q.caches == p.caches + 1
    ensures PlayerStep(PlayerStep(p, r), u).scribbles == p.scribbles
    ensures Balanced(p) ==> PlayerStep(PlayerStep(p, r), u).caches == p.caches
  {
  }

  /** The crash the unguarded `Done` leads to: a new player whose only
      stroke is undone while it is still being drawn, then finished. The
      guarded step instead just ends the stroke. */
  lemma UndoneStrokeCrashesDone(id: Int32, kinds: (string, string))
    ensures
      var started := PlayerStep(PlayerValue(id, false, false, [], 0), Event(id, kinds.0, Started));
      var undone := PlayerStep(started, Event(id, kinds.1, Undo));
      && DoneAsWritten(undone) == None
      && PlayerStep(undone, Event(id, "done", Done)) == PlayerValue(id, false, false, [], 0)
  {
  }

  /** The guarded `Done` never fails: it clears the flag and keeps the
      strokes and caches, whatever the player holds. */
  lemma DoneEndsStroke(p: PlayerValue, e: Event)
    requires e.inner.Done?
    ensures PlayerStep(p, e) == p.(drawing := false)
    ensures p.caches > 0 ==> DoneAsWritten(p) == Some(PlayerStep(p, e))
  {
  }
}
