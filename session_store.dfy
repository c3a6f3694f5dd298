/** The server (server.go): the authoritative per-player session store driven by
    received events (`SHandleReceivedEvents`), and the broadcast scheduler that
    drains the outbound queue once per tick and writes each event, framed, to
    its recipients (`SendEvent`). */
module SessionStore {
  import opened Events
  import opened Framing

  /** What a session (`Client{Drawing, Scribbles, Deleted}`) holds. */
  datatype SessionValue = SessionValue(drawing: bool, scribbles: seq<Scribble>, deleted: seq<Scribble>)

  /** `NewClient(id, conn)`: a session that is not drawing, with no strokes
      and nothing undone (the id and the connection are the map key and the
      stream the server keeps beside it). */
  function NewClient(): (c: SessionValue)
    ensures !c.drawing && c.scribbles == [] && c.deleted == []
  {
    SessionValue(false, [], [])
  }

  /** A session's next value and the events its handler enqueues, in order. */
  datatype Step = Step(next: SessionValue, out: seq<Event>)

  /** The per-session cases of `SHandleReceivedEvents`. */
  function SessionStep(s: SessionValue, e: Event): (r: Step)
    requires IsSessionEvent(e)
    // At most one event is forwarded, a per-player event of the sender.
    ensures |r.out| <= 1
    ensures forall i | 0 <= i < |r.out| :: r.out[i].playerId == e.playerId && IsSessionEvent(r.out[i])
    // Nothing is forwarded exactly when there is nothing to undo or redo,
    // and then the session is left as it was.
    ensures r.out == [] <==> (e.inner.Undo? && s.scribbles == []) || (e.inner.Redo? && s.deleted == [])
    ensures r.out == [] ==> r.next == s
    // No stroke is ever lost: only `Started` adds one, undo and redo move one
    // between the two stacks.
    ensures |r.next.scribbles| + |r.next.deleted| == |s.scribbles| + |s.deleted| + (if e.inner.Started? then 1 else 0)
    ensures !e.inner.Undo? && !e.inner.Redo? ==> r.next.deleted == s.deleted
  {
    match e.inner
    case Started =>
      Step(SessionValue(true, Append(s.scribbles, []), s.deleted), [Event(e.playerId, e.kind, Started)])
    case Done =>
      Step(s.(drawing := false), [Event(e.playerId, e.kind, Done)])
    case Drawing(p) =>
      Step(s.(scribbles := AppendToLast(s.scribbles, p)), [e])
    case Undo =>
      if |s.scribbles| > 0 then
        Step(s.(scribbles := DropLast(s.scribbles), deleted := Append(s.deleted, s.scribbles[|s.scribbles| - 1])), [e])
      else Step(s, [])
    case Redo(_) =>
      if |s.deleted| > 0 then
        var top := s.deleted[|s.deleted| - 1];
        Step(s.(scribbles := Append(s.scribbles, top), deleted := DropLast(s.deleted)), [Event(e.playerId, "redo", Redo(top))])
      else Step(s, [])
  }

  /** One `Joined` per stored session, in the given iteration order, each
      carrying that session's id, drawing flag and strokes, tagged with the
      requester's id and kind. */
  function Replay(e: Event, order: seq<Int32>, sessions: map<Int32, SessionValue>): (r: seq<Event>)
    requires forall i | 0 <= i < |order| :: order[i] in sessions
    ensures |r| == |order|
    ensures forall i | 0 <= i < |order| ::
      r[i] == Event(e.playerId, e.kind, Joined(order[i], sessions[order[i]].drawing, sessions[order[i]].scribbles))
  {
    if order == [] then []
    else
      var k := order[|order| - 1];
      Replay(e, order[..|order| - 1], sessions) + [Event(e.playerId, e.kind, Joined(k, sessions[k].drawing, sessions[k].scribbles))]
  }

  /** Whether a drained event ends the scheduler: `SendEvent` returns when the
      length prefix of a `Pong` cannot be written to its addressee. */
  predicate Halts(e: Event, failed: set<Int32>)
  {
    e.inner.Pong? && e.playerId in failed
  }

  /** How many drained events are handled before the scheduler returns. */
  function HaltAt(events: seq<Event>, failed: set<Int32>): (n: nat)
    ensures n <= |events|
  {
    if events == [] then 0
    else if Halts(events[0], failed) then 0
    else 1 + HaltAt(events[1..], failed)
  }

  /** Whether connection `k` is written an event: a `Pong` goes to its addressee
      only, a `Ping` (which has no sending case) to nobody, every other kind to
      every session; a connection whose write fails gets nothing. */
  function DeliveredTo(e: Event, k: Int32, failed: set<Int32>): (b: bool)
    ensures b ==> k !in failed && !e.inner.Ping?
    ensures b && e.inner.Pong? ==> k == e.playerId
    ensures k !in failed && !e.inner.Ping? && !e.inner.Pong? ==> b
  {
    k !in failed && !e.inner.Ping? && (e.inner.Pong? ==> e.playerId == k)
  }

  /** The payloads written to connection `k` for the first `n` drained events,
      in queue order. */
  function Delivered(events: seq<Event>, n: nat, k: Int32, failed: set<Int32>, encode: Event -> seq<Byte>): seq<seq<Byte>>
    requires n <= |events|
  {
    if n == 0 then []
    else Delivered(events, n - 1, k, failed, encode) + (if DeliveredTo(events[n - 1], k, failed) then [encode(events[n - 1])] else [])
  }

  /** The bytes written to connection `k` for the first `n` drained events. */
  function Written(events: seq<Event>, n: nat, k: Int32, failed: set<Int32>, encode: Event -> seq<Byte>): seq<Byte>
    requires n <= |events|
  {
    if n == 0 then []
    else Written(events, n - 1, k, failed, encode) + (if DeliveredTo(events[n - 1], k, failed) then Frame(encode(events[n - 1])) else [])
  }

  /** What is written to a connection is exactly its delivered payloads, each
      framed, back to back. */
  lemma {:induction false} WrittenIsFrames(events: seq<Event>, n: nat, k: Int32, failed: set<Int32>, encode: Event -> seq<Byte>)
    requires n <= |events|
    ensures Written(events, n, k, failed, encode) == Frames(Delivered(events, n, k, failed, encode))
  {
    if n > 0 {
      var e := events[n - 1];
      var before := Delivered(events, n - 1, k, failed, encode);
      var tail := if DeliveredTo(e, k, failed) then [encode(e)] else [];
      assert Written(events, n - 1, k, failed, encode) == Frames(before) by {
        WrittenIsFrames(events, n - 1, k, failed, encode);
      }
      assert Frames(before + tail) == Frames(before) + Frames(tail) by {
        FramesAppend(before, tail);
      }
      assert Frames(tail) == if DeliveredTo(e, k, failed) then Frame(encode(e)) else [] by {
        if tail != [] {
          assert tail[1..] == [];
        }
      }
    }
  }

  /** The first halting event is where the scheduler stops. */
  lemma {:induction false} HaltAtFirst(events: seq<Event>, failed: set<Int32>, i: nat)
    requires i <= |events|
    requires forall j | 0 <= j < i :: !Halts(events[j], failed)
    ensures i <= HaltAt(events, failed)
    ensures i < |events| && Halts(events[i], failed) ==> HaltAt(events, failed) == i
  {
    if i > 0 {
      HaltAtFirst(events[1..], failed, i - 1);
    }
  }

  /** Go's `for _, client := range clients`: every key exactly once, in an
      order the language leaves unspecified. */
  method IterationOrder(keys: set<Int32>) returns (order: seq<Int32>)
    ensures |order| == |keys|
    ensures forall k :: k in keys <==> k in order
    ensures forall i, j | 0 <= i < j < |order| :: order[i] != order[j]
  {
    var todo := keys;
    order := [];
    while todo != {}
      invariant forall k :: k in keys <==> (k in todo || k in order)
      invariant forall k | k in order :: k !in todo
      invariant forall i, j | 0 <= i < j < |order| :: order[i] != order[j]
      invariant |order| + |todo| == |keys|
      decreases |todo|
    {
      var k :| k in todo;
      order := order + [k];
      todo := todo - {k};
    }
  }

  /** The server's state as a value: the id counter, the sessions, the
      outbound queue, the bytes written to each connection, and whether the
      scheduler has returned. */
  datatype ServerView = ServerView(
    id: Int32, sessions: map<Int32, SessionValue>, outbox: seq<Event>,
    wire: map<Int32, seq<Byte>>, halted: bool)

  /** `SHandleReceivedEvents` on the state as a value; `order` is the map
      iteration order of the `Joined` case. */
  function Receive(v: ServerView, e: Event, order: seq<Int32>): (r: (ServerView, Outcome))
    requires e.inner.Joined? ==> forall i | 0 <= i < |order| :: order[i] in v.sessions
    // The connection is closed exactly for a per-player event from an id
    // with no session, and then nothing changes.
    ensures r.1 == ConnectionClosed <==> IsSessionEvent(e) && e.playerId !in v.sessions
    ensures r.1 == ConnectionClosed ==> r.0 == v
    // Only `Ping` moves the counter and opens a connection.
    ensures !e.inner.Ping? ==> r.0.id == v.id && r.0.wire == v.wire
  {
    match e.inner
    case Ping =>
      var newId := Wrap32(v.id as int + 1);
      (v.(id := newId, sessions := v.sessions[newId := NewClient()],
          outbox := v.outbox + [Event(newId, "pong", Pong)], wire := v.wire[newId := []]), Handled)
    case Joined(_, _, _) => (v.(outbox := v.outbox + Replay(e, order, v.sessions)), Handled)
    case Left => (v.(outbox := v.outbox + [Event(e.playerId, e.kind, Left)]), Handled)
    case Pong => (v, Handled)
    case _ =>
      if e.playerId !in v.sessions then (v, ConnectionClosed)
      else
        var st := SessionStep(v.sessions[e.playerId], e);
        (v.(sessions := v.sessions[e.playerId := st.next], outbox := v.outbox + st.out), Handled)
  }

  /** How a received event ended: handled, or a nil-session dereference that
      `ReadConn` recovers from by closing the connection. */
  datatype Outcome = Handled | ConnectionClosed


  /** The server's globals: the `id` counter, the `clients` map, the channel
      of events to send, the bytes written to each session's connection, and
      whether `SendEvent` has returned. `encode` is gob's `Encode`. Sessions
      are held by value: a queued `Joined` carries a snapshot of the strokes,
      where server.go's shares their backing array with the live session
      (see `Replication.ReplayAsWritten`). */
  class Server {
    var id: Int32
    var clients: map<Int32, SessionValue>
    var outbox: seq<Event>
    var wire: map<Int32, seq<Byte>>
    var halted: bool
    const encode: Event -> seq<Byte>

    /** Every session has a connection, and every queued `Pong` is addressed
        to a session (`SendEvent` dereferences `clients[event.PlayerId]`). */
    ghost predicate Valid()
      reads this
    {
      && wire.Keys == clients.Keys
      && forall i | 0 <= i < |outbox| :: outbox[i].inner.Pong? ==> outbox[i].playerId in clients
    }

    ghost function View(): ServerView
      reads this
    {
      ServerView(id, clients, outbox, wire, halted)
    }

    /** The program's initial globals. */
    constructor (encode: Event -> seq<Byte>)
      ensures Valid()
      ensures View() == ServerView(0, map[], [], map[], false)
      ensures this.encode == encode
    {
      id := 0;
      clients := map[];
      outbox := [];
      wire := map[];
      halted := false;
      this.encode := encode;
    }

    /** `SHandleReceivedEvents`: one received event against the session store.
        `order` is the iteration order chosen for the `Joined` case. */
    method HandleReceived(e: Event) returns (outcome: Outcome, order: seq<Int32>)
      requires Valid()
      modifies this`id, this`clients, this`outbox, this`wire
      ensures Valid()
      ensures e.inner.Joined? ==>
        && |order| == |old(clients)| && (forall k :: k in old(clients) <==> k in order)
        && (forall i, j | 0 <= i < j < |order| :: order[i] != order[j])
      ensures (View(), outcome) == Receive(old(View()), e, order)
    {
      outcome := Handled;
      order := [];
      match e.inner {
        case Ping =>
          var _ := OnPing();
        case Joined(_, _, _) =>
          order := OnJoined(e);
        case Left =>
          OnLeft(e);
        case Pong =>
        case _ =>
          outcome := HandleSessionEvent(e);
      }
    }

    /** `Joined`: replay every session, in the map's iteration order, to
        everyone. */
    method OnJoined(e: Event) returns (order: seq<Int32>)
      requires Valid() && e.inner.Joined?
      modifies this`outbox
      ensures Valid()
      ensures |order| == |old(clients)| && (forall k :: k in old(clients) <==> k in order)
      ensures forall i, j | 0 <= i < j < |order| :: order[i] != order[j]
      ensures (View(), Handled) == Receive(old(View()), e, order)
    {
      order := IterationOrder(clients.Keys);
      EnqueueReplay(e, order);
    }

    /** `Left`: forward the event to everyone. */
    method OnLeft(e: Event)
      requires Valid() && e.inner.Left?
      modifies this`outbox
      ensures Valid()
      ensures (View(), Handled) == Receive(old(View()), e, [])
    {
      outbox := outbox + [Event(e.playerId, e.kind, Left)];
    }

    /** `Ping`: take the next id from the counter, register a new session
        under it, and queue the `Pong` that tells the sender its id. */
    method OnPing() returns (newId: Int32)
      requires Valid()
      modifies this`id, this`clients, this`outbox, this`wire
      ensures Valid()
      ensures newId == id == Wrap32(old(id) as int + 1)
      ensures clients == old(clients)[newId := NewClient()]
      ensures wire == old(wire)[newId := []]
      ensures outbox == old(outbox) + [Event(newId, "pong", Pong)]
    {
      newId := Wrap32(id as int + 1);
      id := newId;
      clients := clients[newId := NewClient()];
      wire := wire[newId := []];
      outbox := outbox + [Event(newId, "pong", Pong)];
    }

    /** The cases of `SHandleReceivedEvents` that update `clients[event.PlayerId]`
        in place; a missing entry is a nil dereference. */
    method HandleSessionEvent(e: Event) returns (outcome: Outcome)
      requires Valid() && IsSessionEvent(e)
      modifies this`clients, this`outbox
      ensures Valid()
      ensures (View(), outcome) == Receive(old(View()), e, [])
    {
      if e.playerId !in clients {
        return ConnectionClosed;
      }
      outcome := Handled;
      UpdateSession(e);
    }

    /** The per-session update for a sender that has a session. */
    method UpdateSession(e: Event)
      requires Valid() && IsSessionEvent(e) && e.playerId in clients
      modifies this`clients, this`outbox
      ensures Valid()
      ensures var st := SessionStep(old(clients)[e.playerId], e);
        clients == old(clients)[e.playerId := st.next] && outbox == old(outbox) + st.out
    {
      match e.inner {
        case Started => OnStarted(e);
        case Done => OnDone(e);
        case Drawing(_) => OnDrawing(e);
        case Undo => OnUndo(e);
        case Redo(_) => OnRedo(e);
      }
    }

    /** `Started`: set the flag, open an empty stroke, echo the event. */
    method OnStarted(e: Event)
      requires Valid() && e.inner.Started? && e.playerId in clients
      modifies this`clients, this`outbox
      ensures Valid()
      ensures var st := SessionStep(old(clients)[e.playerId], e);
        clients == old(clients)[e.playerId := st.next] && outbox == old(outbox) + st.out
    {
      var pid := e.playerId;
      var c := clients[pid].(drawing := true);
      c := c.(scribbles := Append(c.scribbles, []));
      clients := clients[pid := c];
      outbox := outbox + [Event(pid, e.kind, Started)];
    }

    /** `Done`: clear the flag, echo the event. */
    method OnDone(e: Event)
      requires Valid() && e.inner.Done? && e.playerId in clients
      modifies this`clients, this`outbox
      ensures Valid()
      ensures var st := SessionStep(old(clients)[e.playerId], e);
        clients == old(clients)[e.playerId := st.next] && outbox == old(outbox) + st.out
    {
      var pid := e.playerId;
      clients := clients[pid := clients[pid].(drawing := false)];
      outbox := outbox + [Event(pid, e.kind, Done)];
    }

    /** `Drawing`: extend the last stroke if there is one; forward the event. */
    method OnDrawing(e: Event)
      requires Valid() && e.inner.Drawing? && e.playerId in clients
      modifies this`clients, this`outbox
      ensures Valid()
      ensures var st := SessionStep(old(clients)[e.playerId], e);
        clients == old(clients)[e.playerId := st.next] && outbox == old(outbox) + st.out
    {
      var pid := e.playerId;
      var c := clients[pid];
      var maxIndex := |c.scribbles| - 1;
      if maxIndex >= 0 {
        var scribbles := c.scribbles[maxIndex := Append(c.scribbles[maxIndex], e.inner.pixel)];
        assert scribbles == AppendToLast(c.scribbles, e.inner.pixel);
        clients := clients[pid := c.(scribbles := scribbles)];
      } else {
        assert clients == clients[pid := c];
      }
      outbox := outbox + [e];
    }

    /** `Undo`: move the last stroke onto the undo stack and forward the
        event; nothing when there is no stroke. */
    method OnUndo(e: Event)
      requires Valid() && e.inner.Undo? && e.playerId in clients
      modifies this`clients, this`outbox
      ensures Valid()
      ensures var st := SessionStep(old(clients)[e.playerId], e);
        clients == old(clients)[e.playerId := st.next] && outbox == old(outbox) + st.out
    {
      var pid := e.playerId;
      var c := clients[pid];
      var maxIndex := |c.scribbles| - 1;
      if maxIndex >= 0 {
        var last := c.scribbles[maxIndex];
        c := c.(scribbles := c.scribbles[..maxIndex]);
        c := c.(deleted := Append(c.deleted, last));
        clients := clients[pid := c];
        outbox := outbox + [e];
      } else {
        assert clients == clients[pid := c] && outbox == outbox + [];
      }
    }

    /** `Redo`: move the top of the undo stack back onto the strokes and
        enqueue it in a `Redo`; nothing when the stack is empty. */
    method OnRedo(e: Event)
      requires Valid() && e.inner.Redo? && e.playerId in clients
      modifies this`clients, this`outbox
      ensures Valid()
      ensures var st := SessionStep(old(clients)[e.playerId], e);
        clients == old(clients)[e.playerId := st.next] && outbox == old(outbox) + st.out
    {
      var pid := e.playerId;
      var c := clients[pid];
      var maxIndex := |c.deleted| - 1;
      if maxIndex >= 0 {
        var last := c.deleted[maxIndex];
        c := c.(scribbles := Append(c.scribbles, last));
        c := c.(deleted := c.deleted[..maxIndex]);
        clients := clients[pid := c];
        outbox := outbox + [Event(pid, "redo", Redo(last))];
      } else {
        assert clients == clients[pid := c] && outbox == outbox + [];
      }
    }

    /** The `Joined` loop: one `Joined` per session, in the given order. */
    method EnqueueReplay(e: Event, order: seq<Int32>)
      requires forall i | 0 <= i < |order| :: order[i] in clients
      modifies this`outbox
      ensures outbox == old(outbox) + Replay(e, order, clients)
    {
      var i := 0;
      while i < |order|
        invariant 0 <= i <= |order|
        invariant outbox == old(outbox) + Replay(e, order[..i], clients)
      {
        var k := order[i];
        assert order[..i + 1][..i] == order[..i];
        outbox := outbox + [Event(e.playerId, e.kind, Joined(k, clients[k].drawing, clients[k].scribbles))];
        i := i + 1;
      }
      assert order[..i] == order;
    }

    /** One `for _, client := range clients` write loop: the frame is appended
        to every connection whose write succeeds. */
    method Broadcast(frame: seq<Byte>, failed: set<Int32>)
      requires wire.Keys == clients.Keys
      modifies this`wire
      ensures wire.Keys == old(wire).Keys
      ensures forall k | k in wire :: wire[k] == if k in failed then old(wire)[k] else old(wire)[k] + frame
    {
      var todo := clients.Keys;
      while todo != {}
        invariant todo <= wire.Keys && wire.Keys == old(wire).Keys
        invariant forall k | k in wire ::
          wire[k] == if k in todo || k in failed then old(wire)[k] else old(wire)[k] + frame
        decreases |todo|
      {
        var k :| k in todo;
        if k !in failed {
          wire := wire[k := wire[k] + frame];
        }
        todo := todo - {k};
      }
    }

    /** One drained event in `SendEvent`: a `Pong` to its addressee, which
        ends the scheduler when the prefix cannot be written; every other
        registered kind to every session. */
    method Deliver(e: Event, failed: set<Int32>) returns (stop: bool)
      requires wire.Keys == clients.Keys
      requires e.inner.Pong? ==> e.playerId in clients
      modifies this`wire
      ensures stop == Halts(e, failed)
      ensures wire.Keys == old(wire).Keys
      ensures forall k | k in wire ::
        wire[k] == old(wire)[k] + if DeliveredTo(e, k, failed) then Frame(encode(e)) else []
    {
      stop := false;
      var frame := Frame(encode(e));
      match e.inner {
        case Pong =>
          if e.playerId in failed {
            stop := true;
            return;
          }
          wire := wire[e.playerId := wire[e.playerId] + frame];
        case Ping =>
        case _ =>
          Broadcast(frame, failed);
      }
    }

    /** One tick of `SendEvent`: drain the queue and deliver its events in
        order, until a `Pong` cannot be written, after which the scheduler
        is gone and later ticks do nothing. */
    method Tick(failed: set<Int32>)
      requires Valid()
      modifies this`outbox, this`wire, this`halted
      ensures Valid()
      ensures old(halted) ==> View() == old(View())
      ensures !old(halted) ==>
        var n := HaltAt(old(outbox), failed);
        && outbox == []
        && halted == (n < |old(outbox)|)
        && wire.Keys == old(wire).Keys
        && forall k | k in wire ::
             wire[k] == old(wire)[k] + Written(old(outbox), n, k, failed, encode)
    {
      if halted {
        return;
      }
      var events := outbox;
      outbox := [];
      var n := DeliverAll(events, failed);
      halted := n < |events|;
    }

    /** The `for _, event := range events` loop of one tick: deliver each event
        in order; returns how many were handled before the scheduler stopped. */
    method DeliverAll(events: seq<Event>, failed: set<Int32>) returns (n: nat)
      requires wire.Keys == clients.Keys
      requires forall i | 0 <= i < |events| :: events[i].inner.Pong? ==> events[i].playerId in clients
      modifies this`wire
      ensures n == HaltAt(events, failed)
      ensures wire.Keys == old(wire).Keys
      ensures forall k | k in wire :: wire[k] == old(wire)[k] + Written(events, n, k, failed, encode)
    {
      n := 0;
      while n < |events|
        invariant n <= |events|
        invariant forall j | 0 <= j < n :: !Halts(events[j], failed)
        invariant wire.Keys == old(wire).Keys == clients.Keys
        invariant forall k | k in wire :: wire[k] == old(wire)[k] + Written(events, n, k, failed, encode)
      {
        var stop := Deliver(events[n], failed);
        if stop {
          HaltAtFirst(events, failed, n);
          return;
        }
        n := n + 1;
      }
      HaltAtFirst(events, failed, n);
    }
  }
}
