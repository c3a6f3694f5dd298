/** The board client of the refactored client (client_types.go): its
    initial state, the event it puts on its send channel, and the counter
    that gives each new render cache its own draw layer. */
module Board {
  import opened Events
  import opened Replica

  /** `Cache` of client_types.go: a render cache that also carries the draw
      layer it was given when created. */
  class LayeredCache {
    var drawing: bool
    var empty: bool
    var texture: Texture
    const layerIndex: Int32

    constructor (layerIndex: Int32)
      ensures drawing && empty && texture == Blank && this.layerIndex == layerIndex
    {
      drawing := true;
      empty := true;
      texture := Blank;
      this.layerIndex := layerIndex;
    }
  }

  /** The layer counter after one more cache: `atomic.AddInt32` by one,
      wrapping at the top of `int32`. */
  function NextLayer(i: Int32): (r: Int32)
    ensures i as int < MaxInt32 ==> r as int == i as int + 1
    ensures i as int == MaxInt32 ==> r as int == -0x8000_0000
  {
    Wrap32(i as int + 1)
  }

  /** The layer indices `n` successive `NewCache` calls hand out, starting
      from counter value `start`. */
  function Issued(start: Int32, n: nat): seq<Int32>
  {
    if n == 0 then [] else Issued(start, n - 1) + [Counter(start, n)]
  }

  /** The counter after `n` caches. */
  function Counter(start: Int32, n: nat): Int32
  {
    if n == 0 then start else NextLayer(Counter(start, n - 1))
  }

  /** Below the top of `int32`, the counter has moved up by exactly `n`. */
  lemma {:induction false} CounterAdvances(start: Int32, n: nat)
    requires start as int + n <= MaxInt32
    ensures Counter(start, n) as int == start as int + n
  {
    if n > 0 {
      CounterAdvances(start, n - 1);
    }
  }

  /** Layer indices strictly increase and are therefore distinct, as long as
      the counter stays below the top of `int32`. */
  lemma {:induction false} IssuedIncreasing(start: Int32, n: nat)
    requires start as int + n <= MaxInt32
    ensures |Issued(start, n)| == n
    ensures forall i | 0 <= i < n :: Issued(start, n)[i] as int == start as int + i + 1
    ensures forall i, j | 0 <= i < j < n :: Issued(start, n)[i] < Issued(start, n)[j]
  {
    if n > 0 {
      IssuedIncreasing(start, n - 1);
      CounterAdvances(start, n);
    }
  }

  /** After 2^32 caches the counter is back where it started, so a layer
      index is reused. */
  lemma LayerIndexWraps()
    ensures NextLayer(MaxInt32 as Int32) as int == -0x8000_0000
    ensures NextLayer(MaxInt32 as Int32) < MaxInt32 as Int32
  {
  }

  /** `BoardClient`: the replica map, `me`, the send channel, the caches in
      draw order and the layer counter. */
  class BoardClient {
    var players: map<Int32, Player>
    var me: Player
    var eventsToSend: seq<Event>
    var cacheArray: seq<LayeredCache>
    var cacheLayerIndex: Int32

    /** `NewBoardClient`: no players, `me` is `NewPlayer(0)`, nothing to
        send, no caches, counter at zero. */
    constructor ()
      ensures players == map[] && fresh(me) && me.Value() == PlayerValue(0, false, false, [], 0)
      ensures eventsToSend == [] && cacheArray == [] && cacheLayerIndex == 0
    {
      players := map[];
      me := new Player(0);
      eventsToSend := [];
      cacheArray := [];
      cacheLayerIndex := 0;
    }

    /** `EnqueueEvent`: exactly the event the arguments describe goes on the
        channel, after everything already there. */
    method EnqueueEvent(playerId: Int32, kind: string, inner: Inner)
      modifies this`eventsToSend
      ensures eventsToSend == old(eventsToSend) + [Event(playerId, kind, inner)]
    {
      eventsToSend := eventsToSend + [Event(playerId, kind, inner)];
    }

    /** `NewCache`: bump the counter and return a fresh cache on the new
        layer, ready to draw into and not yet rendered. */
    method NewCache() returns (c: LayeredCache)
      modifies this`cacheLayerIndex
      ensures cacheLayerIndex == NextLayer(old(cacheLayerIndex))
      ensures fresh(c) && c.layerIndex == cacheLayerIndex
      ensures c.drawing && c.empty && c.texture == Blank
    {
      cacheLayerIndex := NextLayer(cacheLayerIndex);
      c := new LayeredCache(cacheLayerIndex);
    }
  }
}
