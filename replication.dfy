/** How the two sides relate: the strokes a client replica holds for a
    player follow the server's session for that player, event for event, and
    a client that joins late starts from the server's copy. */
module Replication {
  import opened Events
  import opened SessionStore
  import opened SessionProperties
  import opened Replica

  /** A client handling forwarded per-player events in order. */
  function Mirror(p: PlayerValue, es: seq<Event>): PlayerValue
    requires SessionEvents(es)
    decreases |es|
  {
    if es == [] then p else Mirror(PlayerStep(p, es[0]), es[1..])
  }

  /** Mirroring two batches is mirroring one after the other. */
  lemma {:induction false} MirrorAppend(p: PlayerValue, a: seq<Event>, b: seq<Event>)
    requires SessionEvents(a) && SessionEvents(b)
    ensures SessionEvents(a + b)
    ensures Mirror(p, a + b) == Mirror(Mirror(p, a), b)
    decreases |a|
  {
    if a == [] {
      assert a + b == b;
    } else {
      assert (a + b)[0] == a[0];
      assert (a + b)[1..] == a[1..] + b;
      MirrorAppend(PlayerStep(p, a[0]), a[1..], b);
    }
  }

  /** What the server forwards for one event is itself a per-player event,
      or nothing. */
  lemma StepForwardsSessionEvents(s: SessionValue, e: Event)
    requires IsSessionEvent(e)
    ensures SessionEvents(SessionStep(s, e).out)
    ensures |SessionStep(s, e).out| <= 1
  {
  }

  /** One event: when the replica holds the session's strokes, handling what
      the server forwards leaves it holding the new strokes, keeps one cache
      per stroke, and keeps the drawing flag in step except after a `Redo`,
      which sets it on the client only. */
  lemma StepMirrored(s: SessionValue, p: PlayerValue, e: Event)
    requires IsSessionEvent(e) && p.scribbles == s.scribbles
    ensures SessionEvents(SessionStep(s, e).out)
    ensures var st := SessionStep(s, e);
      var q := Mirror(p, st.out);
      && q.scribbles == st.next.scribbles
      && (Balanced(p) ==> Balanced(q))
      && (p.drawing == s.drawing && !e.inner.Redo? ==> q.drawing == st.next.drawing)
      && (e.inner.Redo? && s.deleted != [] ==> q.drawing)
  {
    var st := SessionStep(s, e);
    StepForwardsSessionEvents(s, e);
    if st.out != [] {
      assert st.out[1..] == [];
      assert Mirror(p, st.out) == PlayerStep(p, st.out[0]);
    }
  }

  /** Convergence: for any run of one player's events at the server, a
      replica that started with the session's strokes and handles everything
      the server forwarded, with the guarded `Done` of `PlayerStep`, ends with
      the session's strokes, one cache each. */
  lemma {:induction false} Convergence(s: SessionValue, p: PlayerValue, es: seq<Event>)
    requires SessionEvents(es) && p.scribbles == s.scribbles
    ensures SessionEvents(Emitted(s, es))
    ensures Mirror(p, Emitted(s, es)).scribbles == Run(s, es).scribbles
    ensures Balanced(p) ==> Balanced(Mirror(p, Emitted(s, es)))
    decreases |es|
  {
    if es != [] {
      var st := SessionStep(s, es[0]);
      assert SessionEvents(es[1..]);
      StepMirrored(s, p, es[0]);
      var q := Mirror(p, st.out);
      Convergence(st.next, q, es[1..]);
      MirrorAppend(p, st.out, Emitted(st.next, es[1..]));
    }
  }

  /** The player a client builds from one replayed `Joined` (for an id other
      than its own) has the session's flag and strokes, one cache each. */
  lemma JoinCatchUp(e: Event, order: seq<Int32>, sessions: map<Int32, SessionValue>, i: nat)
    requires forall j | 0 <= j < |order| :: order[j] in sessions
    requires i < |order|
    ensures var j := Replay(e, order, sessions)[i].inner;
      && j.Joined? && j.id == order[i]
      && JoinedPlayer(j.id, j.isDrawing, j.scribbles)
         == PlayerValue(order[i], sessions[order[i]].drawing, true, sessions[order[i]].scribbles, |sessions[order[i]].scribbles|)
  {
  }

  /** A late joiner converges: the replica built from the server's replayed
      session, after every event the server forwards for that player from
      then on, holds exactly the strokes the session holds. The replica
      handles them with the guarded `Done` of `PlayerStep`: client.go's own
      `Done` panics on a player with no cache (`UndoneStrokeCrashesDone`). */
  lemma LateJoinerConverges(s: SessionValue, k: Int32, es: seq<Event>)
    requires SessionEvents(es)
    ensures SessionEvents(Emitted(s, es))
    ensures var p := Mirror(JoinedPlayer(k, s.drawing, s.scribbles), Emitted(s, es));
      p.scribbles == Run(s, es).scribbles && Balanced(p)
  {
    Convergence(s, JoinedPlayer(k, s.drawing, s.scribbles), es);
  }

  /** The replayed `Joined` for session `k` as server.go writes it when the
      session receives only `Drawing` events (the pixels `ps`) between the
      moment the event is queued and the tick that encodes it. The drawing
      flag is copied when the event is queued, but the strokes share their
      backing array with the live session, and a `Drawing` replaces the last
      stroke's slot in that array, so the tick encodes the strokes as they
      are by then. With nothing drawn in between it is the snapshot that
      `Replay` queues. */
  function ReplayAsWritten(e: Event, k: Int32, kind: string, s: SessionValue, ps: Scribble): (r: Event)
    ensures r.playerId == e.playerId && r.kind == e.kind
    ensures r.inner.Joined? && r.inner.id == k && r.inner.isDrawing == s.drawing
    ensures ps == [] ==> r == Event(e.playerId, e.kind, Joined(k, s.drawing, s.scribbles))
  {
    Event(e.playerId, e.kind, Joined(k, s.drawing, Run(s, Drawings(k, kind, ps)).scribbles))
  }

  /** With server.go's replay as written, a late joiner still converges when
      the player it joins draws nothing between the moment the replay is
      queued and the tick that encodes it: the replay is then the snapshot.
      The replica handles the forwarded events with the guarded `Done` of
      `PlayerStep`, not client.go's unguarded one. */
  lemma AsWrittenConvergesWhenIdle(e: Event, k: Int32, kind: string, s: SessionValue, es: seq<Event>)
    requires SessionEvents(es)
    ensures SessionEvents(Emitted(s, es))
    ensures var j := ReplayAsWritten(e, k, kind, s, []).inner;
      var p := Mirror(JoinedPlayer(k, j.isDrawing, j.scribbles), Emitted(s, es));
      p.scribbles == Run(s, es).scribbles && Balanced(p)
  {
    LateJoinerConverges(s, k, es);
  }

  /** A client handling a run of `Drawing` events extends its last stroke by
      their pixels, in order, as the server does. */
  lemma MirrorDrawings(p: PlayerValue, k: Int32, kind: string, init: seq<Scribble>, last: Scribble, ps: Scribble)
    requires p.scribbles == init + [last]
    ensures SessionEvents(Drawings(k, kind, ps))
    ensures Mirror(p, Drawings(k, kind, ps)).scribbles == init + [last + ps]
  {
    var s := SessionValue(false, p.scribbles, []);
    var es := Drawings(k, kind, ps);
    assert SessionEvents(es);
    Convergence(s, p, es);
    DrawingsForwarded(s, k, kind, ps);
    DrawingsExtendLast(s, k, kind, init, last, ps);
  }

  /** As written, a late joiner does not converge: when the player it joins
      holds a stroke and draws before the replay is encoded, the replay
      already carries the new pixels and the server forwards them again, so
      the joiner's last stroke holds them twice. */
  lemma SourceReplayDiverges(e: Event, k: Int32, kind: string, s: SessionValue, init: seq<Scribble>, last: Scribble, ps: Scribble)
    requires s.scribbles == init + [last] && ps != []
    ensures SessionEvents(Emitted(s, Drawings(k, kind, ps)))
    ensures var j := ReplayAsWritten(e, k, kind, s, ps).inner;
      var p := Mirror(JoinedPlayer(k, j.isDrawing, j.scribbles), Emitted(s, Drawings(k, kind, ps)));
      && Run(s, Drawings(k, kind, ps)).scribbles == init + [last + ps]
      && p.scribbles == init + [last + ps + ps]
      && p.scribbles != Run(s, Drawings(k, kind, ps)).scribbles
  {
    var es := Drawings(k, kind, ps);
    DrawingsExtendLast(s, k, kind, init, last, ps);
    DrawingsForwarded(s, k, kind, ps);
    var q := JoinedPlayer(k, s.drawing, init + [last + ps]);
    MirrorDrawings(q, k, kind, init, last + ps, ps);
    assert (init + [last + ps + ps])[|init|] == last + ps + ps;
    assert (init + [last + ps])[|init|] == last + ps;
    assert |last + ps + ps| != |last + ps|;
  }
}
