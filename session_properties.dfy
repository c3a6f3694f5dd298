/** What the server's session handlers promise, stated over `SessionStep` and
    `Receive` and, for runs of events, over `Run`. */
module SessionProperties {
  import opened Events
  import opened SessionStore
  import opened Framing

  /** Events that each address a session. */
  predicate SessionEvents(es: seq<Event>)
  {
    forall i | 0 <= i < |es| :: IsSessionEvent(es[i])
  }

  /** One player's events handled in order: the session they leave. */
  function Run(s: SessionValue, es: seq<Event>): SessionValue
    requires SessionEvents(es)
    decreases |es|
  {
    if es == [] then s else Run(SessionStep(s, es[0]).next, es[1..])
  }

  /** Everything those events enqueue, in order. */
  function Emitted(s: SessionValue, es: seq<Event>): seq<Event>
    requires SessionEvents(es)
    decreases |es|
  {
    if es == [] then [] else
      var first := SessionStep(s, es[0]);
      first.out + Emitted(first.next, es[1..])
  }

  /** Running two batches is running the first, then the second from where it
      left off. */
  lemma {:induction false} RunAppend(s: SessionValue, a: seq<Event>, b: seq<Event>)
    requires SessionEvents(a) && SessionEvents(b)
    ensures SessionEvents(a + b)
    ensures Run(s, a + b) == Run(Run(s, a), b)
    decreases |a|
  {
    if a == [] {
      assert a + b == b;
    } else {
      assert (a + b)[0] == a[0];
      assert (a + b)[1..] == a[1..] + b;
      RunAppend(SessionStep(s, a[0]).next, a[1..], b);
    }
  }

  /** ... and what they enqueue is concatenated. */
  lemma {:induction false} EmittedAppend(s: SessionValue, a: seq<Event>, b: seq<Event>)
    requires SessionEvents(a) && SessionEvents(b)
    ensures SessionEvents(a + b)
    ensures Emitted(s, a + b) == Emitted(s, a) + Emitted(Run(s, a), b)
    decreases |a|
  {
    if a == [] {
      assert a + b == b;
    } else {
      var first := SessionStep(s, a[0]);
      var rest := a[1..];
      assert SessionEvents(rest + b);
      assert Emitted(s, a + b) == first.out + Emitted(first.next, rest + b) by {
        assert (a + b)[0] == a[0];
        assert (a + b)[1..] == rest + b;
      }
      assert Emitted(first.next, rest + b) == Emitted(first.next, rest) + Emitted(Run(s, a), b) by {
        EmittedAppend(first.next, rest, b);
      }
      assert first.out + (Emitted(first.next, rest) + Emitted(Run(s, a), b))
          == (first.out + Emitted(first.next, rest)) + Emitted(Run(s, a), b);
    }
  }

  /** `NewClient`: a new session is not drawing and has no strokes, and a
      `Ping` registers one under the next id and enqueues one `Pong` for it;
      with the counter below MaxInt32 the id is the counter plus one and no
      session had it. */
  lemma PingRegistersNewClient(v: ServerView, e: Event)
    requires e.inner.Ping?
    ensures var (r, outcome) := Receive(v, e, []);
      && outcome == Handled
      && r.sessions == v.sessions[r.id := NewClient()]
      && r.outbox == v.outbox + [Event(r.id, "pong", Pong)]
      && (v.id as int < MaxInt32 ==> r.id as int == v.id as int + 1)
      && (v.id as int < MaxInt32 && IdsBelowCounter(v) ==> r.id !in v.sessions && IdsBelowCounter(r))
  {
  }

  /** Every session id lies in 1..counter: no id above the counter is taken. */
  predicate IdsBelowCounter(v: ServerView)
  {
    0 <= v.id && forall k | k in v.sessions :: 1 <= k <= v.id
  }

  /** Receiving an event never removes a session, only appends to the queue,
      and changes no session but the sender's (or, for `Ping`, the new one). */
  lemma ReceiveChangesOnlySender(v: ServerView, e: Event, order: seq<Int32>)
    requires e.inner.Joined? ==> forall i | 0 <= i < |order| :: order[i] in v.sessions
    ensures var r := Receive(v, e, order).0;
      && v.sessions.Keys <= r.sessions.Keys
      && (!e.inner.Ping? ==> r.sessions.Keys == v.sessions.Keys)
      && |v.outbox| <= |r.outbox| && r.outbox[..|v.outbox|] == v.outbox
      && r.halted == v.halted
      && (e.inner.Left? ==> r.sessions == v.sessions && r.outbox == v.outbox + [Event(e.playerId, e.kind, Left)])
      && forall k | k in v.sessions && k != e.playerId && !(e.inner.Ping? && k == r.id) ::
           r.sessions[k] == v.sessions[k]
  {
  }

  /** A `Pong` reaches its addressee whenever that write has not failed. */
  lemma PongReachesAddressee(e: Event, failed: set<Int32>)
    requires e.inner.Pong? && e.playerId !in failed
    ensures DeliveredTo(e, e.playerId, failed)
  {
  }

  /** The server's initial view (no sessions, counter at zero) has every id
      below the counter. */
  lemma InitialIdsBelowCounter()
    ensures IdsBelowCounter(ServerView(0, map[], [], map[], false))
  {
  }

  /** Every received event keeps session ids below the counter while the
      counter is below MaxInt32: only `Ping` adds a session, under the new
      counter value. */
  lemma ReceiveKeepsIdsBelowCounter(v: ServerView, e: Event, order: seq<Int32>)
    requires IdsBelowCounter(v) && v.id as int < MaxInt32
    requires e.inner.Joined? ==> forall i | 0 <= i < |order| :: order[i] in v.sessions
    ensures IdsBelowCounter(Receive(v, e, order).0)
    ensures Receive(v, e, order).0.id as int == v.id as int + (if e.inner.Ping? then 1 else 0)
  {
  }

  /** The number of `Ping` events in a stream. */
  function Pings(es: seq<Event>): (n: nat)
    ensures n <= |es|
  {
    if es == [] then 0 else Pings(es[..|es| - 1]) + (if es[|es| - 1].inner.Ping? then 1 else 0)
  }

  /** The view after receiving `es` in turn from `v`; a `Joined` is replayed
      in the order `[]`, which only affects what is queued, never the
      sessions or the counter. */
  function After(v: ServerView, es: seq<Event>): ServerView
  {
    if es == [] then v else Receive(After(v, es[..|es| - 1]), es[|es| - 1], []).0
  }

  /** From the initial view, after fewer than MaxInt32 connections the
      counter equals the number of `Ping`s and every session id is below it,
      so `PingRegistersNewClient`'s freshness applies to every state the
      server reaches. */
  lemma {:induction false} ReachableIdsBelowCounter(es: seq<Event>)
    requires Pings(es) < MaxInt32
    ensures var v := After(ServerView(0, map[], [], map[], false), es);
      IdsBelowCounter(v) && v.id as int == Pings(es)
  {
    if es != [] {
      var front := es[..|es| - 1];
      ReachableIdsBelowCounter(front);
      ReceiveKeepsIdsBelowCounter(After(ServerView(0, map[], [], map[], false), front), es[|es| - 1], []);
    }
  }

  /** `Joined` leaves the store as it is and enqueues, after what was queued,
      exactly one `Joined` per session, carrying that session's id, drawing
      flag and strokes and tagged with the requester's id and kind. */
  lemma JoinedReplaysEverySession(v: ServerView, e: Event, order: seq<Int32>)
    requires e.inner.Joined?
    requires forall k :: k in v.sessions <==> k in order
    requires forall i, j | 0 <= i < j < |order| :: order[i] != order[j]
    ensures var (r, outcome) := Receive(v, e, order);
      && outcome == Handled && r.sessions == v.sessions && r.id == v.id && r.wire == v.wire
      && |r.outbox| == |v.outbox| + |v.sessions| && r.outbox[..|v.outbox|] == v.outbox
      && forall k | k in v.sessions :: exists i | |v.outbox| <= i < |r.outbox| ::
           r.outbox[i] == Event(e.playerId, e.kind, Joined(k, v.sessions[k].drawing, v.sessions[k].scribbles))
  {
    var replay := Replay(e, order, v.sessions);
    var r := v.(outbox := v.outbox + replay);
    assert Receive(v, e, order) == (r, Handled);
    assert |order| == |v.sessions| by {
      DistinctCovers(order, v.sessions.Keys);
    }
    assert r.outbox[..|v.outbox|] == v.outbox;
    forall k | k in v.sessions
      ensures exists i | |v.outbox| <= i < |r.outbox| ::
        r.outbox[i] == Event(e.playerId, e.kind, Joined(k, v.sessions[k].drawing, v.sessions[k].scribbles))
    {
      var j :| 0 <= j < |order| && order[j] == k;
      assert r.outbox[|v.outbox| + j] == replay[j];
    }
  }

  /** A duplicate-free listing of a set is as long as the set. */
  lemma {:induction false} DistinctCovers(order: seq<Int32>, keys: set<Int32>)
    requires forall k :: k in keys <==> k in order
    requires forall i, j | 0 <= i < j < |order| :: order[i] != order[j]
    ensures |order| == |keys|
  {
    if order != [] {
      var last := order[|order| - 1];
      var init := order[..|order| - 1];
      assert forall k :: k in keys - {last} <==> k in init by {
        forall k ensures k in keys - {last} <==> k in init {
          if k in init {
            var i :| 0 <= i < |init| && init[i] == k;
            assert order[i] == k;
          }
          if k in order && k != last {
            var i :| 0 <= i < |order| && order[i] == k;
            assert i < |order| - 1;
            assert init[i] == k;
          }
        }
      }
      DistinctCovers(init, keys - {last});
    } else {
      assert forall k :: k !in keys;
    }
  }

  /** `Started` sets the flag and opens one empty stroke; earlier strokes and
      the undo stack are kept; the event is echoed. */
  lemma StartedOpensStroke(s: SessionValue, e: Event)
    requires e.inner.Started?
    ensures var st := SessionStep(s, e);
      && st.next.drawing
      && st.next.scribbles == s.scribbles + [[]]
      && st.next.deleted == s.deleted
      && st.out == [Event(e.playerId, e.kind, Started)]
  {
  }

  /** `Done` clears the flag and changes nothing else; the event is echoed. */
  lemma DoneClosesStroke(s: SessionValue, e: Event)
    requires e.inner.Done?
    ensures var st := SessionStep(s, e);
      && st.next == SessionValue(false, s.scribbles, s.deleted)
      && st.out == [Event(e.playerId, e.kind, Done)]
  {
  }

  /** `Drawing` extends the last stroke by the pixel when there is one and is
      otherwise no change; either way the event is forwarded unchanged. */
  lemma DrawingExtendsLastStroke(s: SessionValue, e: Event)
    requires e.inner.Drawing?
    ensures var st := SessionStep(s, e);
      && st.out == [e]
      && st.next.drawing == s.drawing && st.next.deleted == s.deleted
      && (s.scribbles == [] ==> st.next == s)
      && (s.scribbles != [] ==>
            var n := |s.scribbles|;
            st.next.scribbles == s.scribbles[..n - 1] + [s.scribbles[n - 1] + [e.inner.pixel]])
  {
  }

  /** `Undo` moves the last stroke onto the undo stack and forwards the event;
      with no stroke it changes nothing and enqueues nothing. Either way the
      number of strokes kept in both lists is the same. */
  lemma UndoMovesLastStroke(s: SessionValue, e: Event)
    requires e.inner.Undo?
    ensures var st := SessionStep(s, e);
      && |st.next.scribbles| + |st.next.deleted| == |s.scribbles| + |s.deleted|
      && st.next.drawing == s.drawing
      && (s.scribbles == [] ==> st == Step(s, []))
      && (s.scribbles != [] ==>
            && st.next.scribbles + [s.scribbles[|s.scribbles| - 1]] == s.scribbles
            && st.next.deleted == s.deleted + [s.scribbles[|s.scribbles| - 1]]
            && st.out == [e])
  {
  }

  /** `Redo` moves the top of the undo stack back onto the strokes and
      enqueues a `Redo` carrying exactly that stroke; with an empty stack it
      changes nothing and enqueues nothing. The flag is never touched. */
  lemma RedoRestoresTopStroke(s: SessionValue, e: Event)
    requires e.inner.Redo?
    ensures var st := SessionStep(s, e);
      && |st.next.scribbles| + |st.next.deleted| == |s.scribbles| + |s.deleted|
      && st.next.drawing == s.drawing
      && (s.deleted == [] ==> st == Step(s, []))
      && (s.deleted != [] ==>
            var top := s.deleted[|s.deleted| - 1];
            && st.next.scribbles == s.scribbles + [top]
            && st.next.deleted + [top] == s.deleted
            && st.out == [Event(e.playerId, "redo", Redo(top))])
  {
  }

  /** `Undo` then `Redo` restores the session exactly, and so does `Redo`
      then `Undo` when there was something to redo. */
  lemma UndoRedoInverse(s: SessionValue, u: Event, r: Event)
    requires u.inner.Undo? && r.inner.Redo?
    ensures s.scribbles != [] ==> SessionStep(SessionStep(s, u).next, r).next == s
    ensures s.deleted != [] ==> SessionStep(SessionStep(s, r).next, u).next == s
  {
  }

  /** `n` repetitions of one event. */
  function Repeat(e: Event, n: nat): (es: seq<Event>)
    ensures |es| == n && forall i | 0 <= i < n :: es[i] == e
  {
    if n == 0 then [] else [e] + Repeat(e, n - 1)
  }

  /** The last repetition can be split off as well as the first. */
  lemma {:induction false} RepeatSnoc(e: Event, n: nat)
    requires n > 0
    ensures Repeat(e, n) == Repeat(e, n - 1) + [e]
  {
    if n > 1 {
      RepeatSnoc(e, n - 1);
      assert [e] + (Repeat(e, n - 2) + [e]) == ([e] + Repeat(e, n - 2)) + [e];
    }
  }

  /** Undoing `n` strokes and then redoing `n` restores the session, for
      every `n` up to the number of strokes. */
  lemma {:induction false} UndoRedoNested(s: SessionValue, u: Event, r: Event, n: nat)
    requires u.inner.Undo? && r.inner.Redo?
    requires n <= |s.scribbles|
    ensures Run(Run(s, Repeat(u, n)), Repeat(r, n)) == s
    decreases n
  {
    if n > 0 {
      var s1 := SessionStep(s, u).next;
      assert Run(s, Repeat(u, n)) == Run(s1, Repeat(u, n - 1)) by {
        assert Repeat(u, n)[1..] == Repeat(u, n - 1);
      }
      var x := Run(s1, Repeat(u, n - 1));
      assert Run(x, Repeat(r, n)) == SessionStep(Run(x, Repeat(r, n - 1)), r).next by {
        RepeatSnoc(r, n);
        RunAppend(x, Repeat(r, n - 1), [r]);
        RunOne(Run(x, Repeat(r, n - 1)), r);
      }
      assert Run(x, Repeat(r, n - 1)) == s1 by {
        UndoRedoNested(s1, u, r, n - 1);
      }
      assert SessionStep(s1, r).next == s by {
        UndoRedoInverse(s, u, r);
      }
    }
  }

  /** The same for the two runs handled back to back. */
  lemma UndoRedoMany(s: SessionValue, u: Event, r: Event, n: nat)
    requires u.inner.Undo? && r.inner.Redo?
    requires n <= |s.scribbles|
    ensures Run(s, Repeat(u, n) + Repeat(r, n)) == s
  {
    UndoRedoNested(s, u, r, n);
    RunAppend(s, Repeat(u, n), Repeat(r, n));
  }

  /** The `Drawing` events of one stroke, one per pixel. */
  function Drawings(pid: Int32, kind: string, ps: Scribble): (es: seq<Event>)
    ensures |es| == |ps|
    ensures forall i | 0 <= i < |ps| :: es[i] == Event(pid, kind, Drawing(ps[i]))
  {
    if ps == [] then []
    else Drawings(pid, kind, ps[..|ps| - 1]) + [Event(pid, kind, Drawing(ps[|ps| - 1]))]
  }

  /** Running one event is one step. */
  lemma RunOne(s: SessionValue, e: Event)
    requires IsSessionEvent(e)
    ensures Run(s, [e]) == SessionStep(s, e).next
    ensures Emitted(s, [e]) == SessionStep(s, e).out
  {
    assert [e][1..] == [];
  }

  /** Extending the last of a non-empty list of strokes. */
  lemma AppendToLastOf(init: seq<Scribble>, last: Scribble, p: Pixel)
    ensures AppendToLast(init + [last], p) == init + [last + [p]]
  {
    assert (init + [last])[..|init|] == init;
  }

  /** A run of `Drawing` events extends the last stroke by their pixels, in
      order. */
  lemma {:induction false} DrawingsExtendLast(s: SessionValue, pid: Int32, kind: string, init: seq<Scribble>, last: Scribble, ps: Scribble)
    requires s.scribbles == init + [last]
    ensures Run(s, Drawings(pid, kind, ps)) == s.(scribbles := init + [last + ps])
    decreases |ps|
  {
    if ps == [] {
      assert last + ps == last;
      assert Drawings(pid, kind, ps) == [];
    } else {
      var front := ps[..|ps| - 1];
      var p := ps[|ps| - 1];
      var d := Event(pid, kind, Drawing(p));
      var mid := s.(scribbles := init + [last + front]);
      var es := Drawings(pid, kind, front);
      assert Drawings(pid, kind, ps) == es + [d];
      assert Run(s, es) == mid by {
        DrawingsExtendLast(s, pid, kind, init, last, front);
      }
      assert Run(s, es + [d]) == SessionStep(mid, d).next by {
        RunAppend(s, es, [d]);
        RunOne(mid, d);
      }
      assert SessionStep(mid, d).next == s.(scribbles := init + [last + ps]) by {
        AppendToLastOf(init, last + front, p);
        assert (last + front) + [p] == last + ps;
      }
    }
  }

  /** Every `Drawing` event is forwarded as it came, whatever the session. */
  lemma {:induction false} DrawingsForwarded(s: SessionValue, pid: Int32, kind: string, ps: Scribble)
    ensures Emitted(s, Drawings(pid, kind, ps)) == Drawings(pid, kind, ps)
    decreases |ps|
  {
    if ps != [] {
      var front := ps[..|ps| - 1];
      var d := Event(pid, kind, Drawing(ps[|ps| - 1]));
      DrawingsForwarded(s, pid, kind, front);
      EmittedAppend(s, Drawings(pid, kind, front), [d]);
      RunOne(Run(s, Drawings(pid, kind, front)), d);
    }
  }

  /** One stroke as a client sends it: `Started`, a `Drawing` per pixel,
      `Done`. The server records exactly that stroke after the existing ones,
      ends not drawing, and echoes every event in order. */
  lemma StrokeRecorded(s: SessionValue, pid: Int32, kinds: (string, string, string), ps: Scribble)
    ensures
      var es := [Event(pid, kinds.0, Started)] + Drawings(pid, kinds.1, ps) + [Event(pid, kinds.2, Done)];
      && Run(s, es) == SessionValue(false, s.scribbles + [ps], s.deleted)
      && Emitted(s, es) == es
  {
    var started := Event(pid, kinds.0, Started);
    var done := Event(pid, kinds.2, Done);
    var draws := Drawings(pid, kinds.1, ps);
    var s1 := SessionStep(s, started).next;
    assert s1 == SessionValue(true, s.scribbles + [[]], s.deleted);
    DrawingsExtendLast(s1, pid, kinds.1, s.scribbles, [], ps);
    assert [] + ps == ps;
    var s2 := SessionValue(true, s.scribbles + [ps], s.deleted);
    RunAppend(s, [started], draws);
    EmittedAppend(s, [started], draws);
    DrawingsForwarded(s1, pid, kinds.1, ps);
    RunOne(s, started);
    RunAppend(s, [started] + draws, [done]);
    EmittedAppend(s, [started] + draws, [done]);
    RunOne(s2, done);
  }

  /** Apart from `Pong`s, every connection whose writes succeed is sent the
      same bytes: all clients see the same events in the same order. */
  lemma {:induction false} SameStreamForAll(events: seq<Event>, n: nat, k1: Int32, k2: Int32, failed: set<Int32>, encode: Event -> seq<Byte>)
    requires n <= |events|
    requires k1 !in failed && k2 !in failed
    requires forall i | 0 <= i < n :: !events[i].inner.Pong?
    ensures Written(events, n, k1, failed, encode) == Written(events, n, k2, failed, encode)
    decreases n
  {
    if n > 0 {
      SameStreamForAll(events, n - 1, k1, k2, failed, encode);
    }
  }

  /** A `Pong` is written to its addressee only: another connection's
      bytes are those of the queue without it. */
  lemma {:induction false} PongOnlyToAddressee(events: seq<Event>, n: nat, k: Int32, failed: set<Int32>, encode: Event -> seq<Byte>)
    requires 0 < n <= |events|
    requires events[n - 1].inner.Pong? && events[n - 1].playerId != k
    ensures Written(events, n, k, failed, encode) == Written(events, n - 1, k, failed, encode)
    ensures Delivered(events, n, k, failed, encode) == Delivered(events, n - 1, k, failed, encode)
  {
  }

  /** The payloads written to one connection are encodings of drained
      events, so bounded like them. */
  lemma {:induction false} DeliveredBounded(events: seq<Event>, n: nat, k: Int32, failed: set<Int32>, encode: Event -> seq<Byte>)
    requires n <= |events|
    requires forall i | 0 <= i < n :: |encode(events[i])| <= MaxInt32
    ensures forall i | 0 <= i < |Delivered(events, n, k, failed, encode)| :: |Delivered(events, n, k, failed, encode)[i]| <= MaxInt32
    decreases n
  {
    if n > 0 {
      DeliveredBounded(events, n - 1, k, failed, encode);
    }
  }

  /** What a tick writes to a connection, read by the client's read loop,
      is exactly the payloads delivered to it, in queue order. */
  lemma ConnectionReadsBack(events: seq<Event>, n: nat, k: Int32, failed: set<Int32>, encode: Event -> seq<Byte>)
    requires n <= |events|
    requires forall i | 0 <= i < n :: |encode(events[i])| <= MaxInt32
    ensures ReadFrames(Written(events, n, k, failed, encode)) == (Delivered(events, n, k, failed, encode), Closed)
  {
    WrittenIsFrames(events, n, k, failed, encode);
    DeliveredBounded(events, n, k, failed, encode);
    FramesRoundTrip(Delivered(events, n, k, failed, encode));
  }
}
