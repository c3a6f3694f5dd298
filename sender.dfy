/** The client's sending side (client.go): `CSendEvent` batches the events
    the UI enqueues and flushes them in order, either once more than
    `MaxBatch` are waiting or on a ticker tick; `HandleEvent` writes each one
    to the connection as a length prefix followed by the gob payload. */
module Sender {
  import opened Events
  import opened Framing

  /** The batch is flushed as soon as it holds more than this many events. */
  const MaxBatch := 50

  /** What `HandleEvent` does to the outside world, in order: a write to the
      connection, or `wg.Done()`. */
  datatype Output = Write(bytes: seq<Byte>) | WgDone

  /** `HandleEvent` for an event whose encoding succeeded: the prefix always,
      the payload for every kind it has a case for (all but `Ping` and
      `Pong`), then `wg.Done()` for `Left`. */
  function Emit(e: Event, payload: seq<Byte>): (r: seq<Output>)
    // The length prefix comes first, the payload only for kinds the client
    // enqueues, and `wg.Done()` for `Left` only, after its payload.
    ensures |r| == (if Batchable(e) then 2 else 1) + (if e.inner.Left? then 1 else 0)
    ensures r[0] == Write(EncodeLength(|payload|))
    ensures Batchable(e) ==> r[1] == Write(payload)
    ensures forall i | 0 <= i < |r| :: r[i] == WgDone <==> e.inner.Left? && i == |r| - 1
  {
    [Write(EncodeLength(|payload|))]
    + (if e.inner.Ping? || e.inner.Pong? then [] else [Write(payload)])
    + (if e.inner.Left? then [WgDone] else [])
  }

  /** How many leading events encode (`Encode` returns no error); the first
      that does not makes `HandleEvent` panic. */
  function Encodable(events: seq<Event>, encode: Event -> Option<seq<Byte>>): (n: nat)
    ensures n <= |events|
    ensures forall i | 0 <= i < n :: encode(events[i]).Some?
    ensures n < |events| ==> encode(events[n]).None?
  {
    if events == [] then 0
    else if encode(events[0]).None? then 0
    else 1 + Encodable(events[1..], encode)
  }

  /** The outputs of handling the first `n` events in order. */
  function Trace(events: seq<Event>, n: nat, encode: Event -> Option<seq<Byte>>): seq<Output>
    requires n <= |events|
    requires forall i | 0 <= i < n :: encode(events[i]).Some?
  {
    if n == 0 then []
    else Trace(events, n - 1, encode) + Emit(events[n - 1], encode(events[n - 1]).value)
  }

  /** The bytes a sequence of outputs puts on the connection. */
  function Bytes(outs: seq<Output>): seq<Byte>
  {
    if outs == [] then []
    else Bytes(outs[..|outs| - 1]) + (match outs[|outs| - 1] case Write(b) => b case WgDone => [])
  }

  /** The payloads of the first `n` events. */
  function Payloads(events: seq<Event>, n: nat, encode: Event -> Option<seq<Byte>>): seq<seq<Byte>>
    requires n <= |events|
    requires forall i | 0 <= i < n :: encode(events[i]).Some?
  {
    if n == 0 then [] else Payloads(events, n - 1, encode) + [encode(events[n - 1]).value]
  }

  /** The events a client enqueues: never `Ping` (sent before the batcher
      starts) nor `Pong` (only the server sends it). */
  predicate Batchable(e: Event)
  {
    !e.inner.Ping? && !e.inner.Pong?
  }

  /** `CSendEvent`'s state: the batch, everything done so far, and whether
      `HandleEvent` has panicked. `encode` is gob's `Encode`. */
  class Sender {
    var batch: seq<Event>
    var trace: seq<Output>
    var crashed: bool
    const encode: Event -> Option<seq<Byte>>

    /** Between two received events the batch never exceeds the bound. */
    ghost predicate Valid()
      reads this
    {
      crashed || |batch| <= MaxBatch
    }

    /** `var batchedEvents []*Event`: nothing batched, nothing written. */
    constructor (encode: Event -> Option<seq<Byte>>)
      ensures Valid() && batch == [] && trace == [] && !crashed && this.encode == encode
    {
      batch := [];
      trace := [];
      crashed := false;
      this.encode := encode;
    }

    /** `HandleEvent`; `ok` is false when the encoding fails, where the
        source panics before writing anything. */
    method HandleEvent(e: Event) returns (ok: bool)
      modifies this`trace
      ensures ok == encode(e).Some?
      ensures trace == old(trace) + if ok then Emit(e, encode(e).value) else []
    {
      var encoded := encode(e);
      if encoded.None? {
        return false;
      }
      var payload := encoded.value;
      trace := trace + [Write(EncodeLength(|payload|))];
      match e.inner {
        case Ping =>
        case Pong =>
        case Left =>
          trace := trace + [Write(payload)];
          trace := trace + [WgDone];
        case _ =>
          trace := trace + [Write(payload)];
      }
      return true;
    }

    /** One flush: every batched event in order, then the batch is cleared;
        a failed encoding ends the sender where it happens. */
    method Flush()
      requires !crashed
      modifies this`trace, this`batch, this`crashed
      ensures var n := Encodable(old(batch), encode);
        && trace == old(trace) + Trace(old(batch), n, encode)
        && crashed == (n < |old(batch)|)
        && (!crashed ==> batch == [])
    {
      var i := 0;
      while i < |batch|
        invariant i <= |batch| && batch == old(batch) && !crashed
        invariant forall j | 0 <= j < i :: encode(batch[j]).Some?
        invariant trace == old(trace) + Trace(batch, i, encode)
      {
        var ok := HandleEvent(batch[i]);
        if !ok {
          crashed := true;
          EncodableAt(batch, encode, i);
          return;
        }
        i := i + 1;
      }
      EncodableAt(batch, encode, i);
      batch := [];
    }

    /** `case event := <-clientEventsToSend`: append, and flush once the
        batch holds more than `MaxBatch` events. */
    method Receive(e: Event)
      requires Valid()
      modifies this`trace, this`batch, this`crashed
      ensures Valid()
      ensures old(crashed) ==> batch == old(batch) && trace == old(trace) && crashed
      ensures !old(crashed) && |old(batch)| < MaxBatch ==>
        batch == old(batch) + [e] && trace == old(trace) && !crashed
      ensures !old(crashed) && |old(batch)| == MaxBatch ==>
        var all := old(batch) + [e];
        var n := Encodable(all, encode);
        && trace == old(trace) + Trace(all, n, encode)
        && crashed == (n < |all|)
        && (!crashed ==> batch == [])
    {
      if crashed {
        return;
      }
      batch := Append(batch, e);
      if |batch| > MaxBatch {
        Flush();
      }
    }

    /** `case <-ticker.C`: flush whatever is batched, if anything. */
    method OnTick()
      requires Valid()
      modifies this`trace, this`batch, this`crashed
      ensures Valid()
      ensures old(crashed) || old(batch) == [] ==>
        batch == old(batch) && trace == old(trace) && crashed == old(crashed)
      ensures !old(crashed) && old(batch) != [] ==>
        var n := Encodable(old(batch), encode);
        && trace == old(trace) + Trace(old(batch), n, encode)
        && crashed == (n < |old(batch)|)
        && (!crashed ==> batch == [])
    {
      if crashed || |batch| == 0 {
        return;
      }
      Flush();
    }
  }

  /** The first failing encoding is where `Encodable` stops. */
  lemma {:induction false} EncodableAt(events: seq<Event>, encode: Event -> Option<seq<Byte>>, i: nat)
    requires i <= |events|
    requires forall j | 0 <= j < i :: encode(events[j]).Some?
    requires i < |events| ==> encode(events[i]).None?
    ensures Encodable(events, encode) == i
  {
    if i > 0 {
      EncodableAt(events[1..], encode, i - 1);
    }
  }

  /** The bytes of two output sequences back to back. */
  lemma {:induction false} BytesAppend(a: seq<Output>, b: seq<Output>)
    ensures Bytes(a + b) == Bytes(a) + Bytes(b)
    decreases |b|
  {
    if b == [] {
      assert a + b == a;
    } else {
      var last := b[|b| - 1];
      var front := b[..|b| - 1];
      assert (a + b)[..|a + b| - 1] == a + front;
      assert (a + b)[|a + b| - 1] == last;
      BytesAppend(a, front);
    }
  }

  /** For the events a client enqueues, the bytes on the connection are the
      payloads, each framed, back to back. */
  lemma {:induction false} TraceIsFrames(events: seq<Event>, n: nat, encode: Event -> Option<seq<Byte>>)
    requires n <= |events|
    requires forall i | 0 <= i < n :: encode(events[i]).Some? && Batchable(events[i])
    ensures Bytes(Trace(events, n, encode)) == Frames(Payloads(events, n, encode))
    decreases n
  {
    if n > 0 {
      var e := events[n - 1];
      var p := encode(e).value;
      var before := Trace(events, n - 1, encode);
      assert Bytes(before) == Frames(Payloads(events, n - 1, encode)) by {
        TraceIsFrames(events, n - 1, encode);
      }
      assert Bytes(Emit(e, p)) == Frame(p) by {
        EmitFrame(e, p);
      }
      assert Bytes(before + Emit(e, p)) == Bytes(before) + Bytes(Emit(e, p)) by {
        BytesAppend(before, Emit(e, p));
      }
      assert Frames(Payloads(events, n, encode)) == Frames(Payloads(events, n - 1, encode)) + Frame(p) by {
        FramesAppend(Payloads(events, n - 1, encode), [p]);
        assert [p][1..] == [];
      }
    }
  }

  /** One client event puts exactly its frame on the connection. */
  lemma EmitFrame(e: Event, p: seq<Byte>)
    requires Batchable(e)
    ensures Bytes(Emit(e, p)) == Frame(p)
  {
    var outs := Emit(e, p);
    var prefix := [Write(EncodeLength(|p|))];
    assert prefix[..0] == [];
    assert Bytes(prefix) == EncodeLength(|p|);
    if e.inner.Left? {
      assert outs == prefix + [Write(p)] + [WgDone];
      assert outs[..2] == prefix + [Write(p)];
      assert (prefix + [Write(p)])[..1] == prefix;
    } else {
      assert outs == prefix + [Write(p)];
      assert outs[..1] == prefix;
    }
  }

  /** Stream round trip: what a flush of client events writes is read back by
      the server's read loop as exactly their payloads, in enqueue order. */
  lemma FlushReadBack(events: seq<Event>, encode: Event -> Option<seq<Byte>>)
    requires forall i | 0 <= i < |events| :: encode(events[i]).Some? && Batchable(events[i])
    requires forall i | 0 <= i < |events| :: |encode(events[i]).value| <= MaxInt32
    ensures Encodable(events, encode) == |events|
    ensures ReadFrames(Bytes(Trace(events, |events|, encode))) == (Payloads(events, |events|, encode), Closed)
  {
    EncodableAt(events, encode, |events|);
    TraceIsFrames(events, |events|, encode);
    PayloadsBounded(events, |events|, encode);
    FramesRoundTrip(Payloads(events, |events|, encode));
  }

  /** The payloads are the encodings of the events, in order. */
  lemma {:induction false} PayloadsBounded(events: seq<Event>, n: nat, encode: Event -> Option<seq<Byte>>)
    requires n <= |events|
    requires forall i | 0 <= i < n :: encode(events[i]).Some?
    ensures |Payloads(events, n, encode)| == n
    ensures forall i | 0 <= i < n :: Payloads(events, n, encode)[i] == encode(events[i]).value
    decreases n
  {
    if n > 0 {
      PayloadsBounded(events, n - 1, encode);
    }
  }

  /** A `Pong` or `Ping` handed to `HandleEvent` gets its prefix but no
      payload, so the reader would take the next frame's bytes as this
      payload; the client never enqueues either kind. */
  lemma PrefixOnlyForPingPong(e: Event, payload: seq<Byte>)
    requires !Batchable(e)
    ensures Bytes(Emit(e, payload)) == EncodeLength(|payload|)
  {
    assert Emit(e, payload) == [Write(EncodeLength(|payload|))];
    assert Emit(e, payload)[..0] == [];
  }
}
