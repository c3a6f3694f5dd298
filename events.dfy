/** The protocol's data: pixels, the nine event payloads and the event envelope,
    plus Go's int32 arithmetic and the slice append every handler relies on. */
module Events {

  /** Go's `int32`. */
  newtype Int32 = x: int | -0x8000_0000 <= x < 0x8000_0000

  /** Go's `byte`. */
  newtype Byte = x: int | 0 <= x < 0x100

  const MaxInt32: int := 0x7FFF_FFFF
  const TwoTo32: int := 0x1_0000_0000

  /** Conversion of an integer to `int32` (and `atomic.AddInt32` overflow):
      two's-complement wrap-around modulo 2^32. */
  function Wrap32(x: int): (r: Int32)
    ensures (r as int - x) % TwoTo32 == 0
    ensures -0x8000_0000 <= x <= MaxInt32 ==> r as int == x
  {
    var m := x % TwoTo32;
    if m <= MaxInt32 then m as Int32 else (m - TwoTo32) as Int32
  }

  /** An optional value. */
  datatype Option<T> = None | Some(value: T)

  /** Coordinates are float32 in the source; only equality and ordering are
      used on them by the modelled code, so they are reals here. */
  datatype Vec2 = Vec2(x: real, y: real)

  datatype Color = Color(r: Byte, g: Byte, b: Byte, a: Byte)

  /** One point sample of a stroke. */
  datatype Pixel = Pixel(center: Vec2, radius: real, color: Color)

  /** One continuous stroke. */
  type Scribble = seq<Pixel>

  /** The nine registered payload variants. */
  datatype Inner =
    | Ping
    | Pong
    | Joined(id: Int32, isDrawing: bool, scribbles: seq<Scribble>)
    | Left
    | Started
    | Drawing(pixel: Pixel)
    | Done
    | Undo
    | Redo(pixels: Scribble)

  /** The unit of replication: originating player, kind tag, payload. */
  datatype Event = Event(playerId: Int32, kind: string, inner: Inner)

  /** The kinds that act on one player's strokes: both sides look the player
      up by `PlayerId` to handle them. */
  predicate IsSessionEvent(e: Event)
  {
    e.inner.Started? || e.inner.Done? || e.inner.Drawing? || e.inner.Undo? || e.inner.Redo?
  }

  /** `Append(&s, x)`, i.e. `*array = append(*array, x)`: the slice variable
      is replaced by one that is one longer and ends in `x`. */
  function Append<T>(s: seq<T>, x: T): (r: seq<T>)
    ensures |r| == |s| + 1
    ensures r[|s|] == x
    ensures r[..|s|] == s
  {
    s + [x]
  }

  /** Appending to the last of a list of strokes, the guarded update that the
      `Drawing` handlers perform; with no stroke the list is returned as is. */
  function AppendToLast(ss: seq<Scribble>, p: Pixel): (r: seq<Scribble>)
    ensures |r| == |ss|
    ensures |ss| > 0 ==> r[..|ss| - 1] == ss[..|ss| - 1] && r[|ss| - 1] == Append(ss[|ss| - 1], p)
    ensures |ss| == 0 ==> r == ss
  {
    if |ss| == 0 then ss else ss[..|ss| - 1] + [Append(ss[|ss| - 1], p)]
  }

  /** Dropping the last element, `s[:len(s)-1]`, when there is one. */
  function DropLast<T>(s: seq<T>): (r: seq<T>)
    ensures |s| > 0 ==> Append(r, s[|s| - 1]) == s
    ensures |s| == 0 ==> r == []
  {
    if |s| == 0 then s else s[..|s| - 1]
  }
}
