/** The painting client's per-frame input handling (paint.go): which
    stroke event the left mouse button produces, the undo and redo keys, the
    pencil size keys, the lazily loaded render target of a stroke
    (`GetCache`) and the bounding-box widening `GetMinAndMax`. */
module Paint {
  import opened Events
  import opened SessionStore
  import opened SessionProperties
  import opened Replica

  /** raylib's `Vector3`. */
  datatype Vec3 = Vec3(x: real, y: real, z: real)

  /** The box `(min, max)` contains the point. */
  predicate Contains(min: Vec3, max: Vec3, p: Vec2)
  {
    min.x <= p.x <= max.x && min.y <= p.y <= max.y
  }

  /** `GetMinAndMax`: the box widened just enough, in X and Y, to take in the
      pixel's centre. */
  function GetMinAndMax(min: Vec3, max: Vec3, pixel: Pixel): (r: (Vec3, Vec3))
    ensures Contains(r.0, r.1, pixel.center)
    ensures r.0.x <= min.x && r.0.y <= min.y && r.1.x >= max.x && r.1.y >= max.y
    ensures r.0.z == min.z && r.1.z == max.z
  {
    var lo := min.(x := if min.x > pixel.center.x then pixel.center.x else min.x,
                   y := if min.y > pixel.center.y then pixel.center.y else min.y);
    var hi := max.(x := if max.x < pixel.center.x then pixel.center.x else max.x,
                   y := if max.y < pixel.center.y then pixel.center.y else max.y);
    (lo, hi)
  }

  /** The widened box is the least one (in X and Y) that holds both the
      old box and the pixel: any box that holds them holds it. */
  lemma GetMinAndMaxLeast(min: Vec3, max: Vec3, pixel: Pixel, lo: Vec3, hi: Vec3)
    requires lo.x <= min.x && lo.y <= min.y && hi.x >= max.x && hi.y >= max.y
    requires Contains(lo, hi, pixel.center)
    ensures var r := GetMinAndMax(min, max, pixel);
      lo.x <= r.0.x && lo.y <= r.0.y && r.1.x <= hi.x && r.1.y <= hi.y
  {
  }

  /** A pixel already inside the box leaves it as it is. */
  lemma GetMinAndMaxInside(min: Vec3, max: Vec3, pixel: Pixel)
    requires Contains(min, max, pixel.center)
    ensures GetMinAndMax(min, max, pixel) == (min, max)
  {
  }

  /** Widening twice by the same pixel is widening once. */
  lemma GetMinAndMaxIdempotent(min: Vec3, max: Vec3, pixel: Pixel)
    ensures var r := GetMinAndMax(min, max, pixel);
      GetMinAndMax(r.0, r.1, pixel) == r
  {
    var r := GetMinAndMax(min, max, pixel);
    GetMinAndMaxInside(r.0, r.1, pixel);
  }

  /** The kind string the client tags each stroke event with. */
  function KindOf(i: Inner): string
  {
    match i
    case Started => "started"
    case Drawing(_) => "drawing"
    case Done => "done"
    case Undo => "undo"
    case Redo(_) => "redo"
    case _ => ""
  }

  /** The stroke event one frame of `HandlePainting` sends, if any, from the
      button state, `me.Drawing`, the pixel under the mouse and the last
      position sent. */
  function PaintEvent(mouseDown: bool, drawing: bool, pixel: Pixel, last: Vec2): (r: Option<Inner>)
    ensures r.Some? ==> r.value.Started? || r.value.Drawing? || r.value.Done?
    ensures r == Some(Started) <==> mouseDown && !drawing
    ensures r == Some(Done) <==> !mouseDown && drawing
    ensures r.Some? && r.value.Drawing? <==> mouseDown && drawing && pixel.center != last
    ensures r.Some? && r.value.Drawing? ==> r.value.pixel == pixel
  {
    if mouseDown then
      if !drawing then Some(Started)
      else if pixel.center != last then Some(Drawing(pixel))
      else None
    else if drawing then Some(Done)
    else None
  }

  /** The events a frame's `PaintEvent` puts on the send channel. */
  function Sent(id: Int32, r: Option<Inner>): seq<Event>
  {
    match r
    case None => []
    case Some(i) => [Event(id, KindOf(i), i)]
  }

  /** Once the server has echoed the frame's event back, the player's
      drawing flag follows the button: pressed starts a stroke, released
      ends it, and nothing else touches the flag. */
  lemma PaintingFollowsButton(p: PlayerValue, mouseDown: bool, pixel: Pixel, last: Vec2)
    ensures var es := Sent(p.id, PaintEvent(mouseDown, p.drawing, pixel, last));
      && SessionEvents(es) && |es| <= 1
      && (es == [] || PlayerStep(p, es[0]).drawing == mouseDown)
      && (es == [] ==> p.drawing == mouseDown)
  {
  }

  /** On the server, the frame's event leaves the session's drawing flag
      equal to the button state when the client's flag was in step. */
  lemma ServerFollowsButton(s: SessionValue, id: Int32, mouseDown: bool, pixel: Pixel, last: Vec2)
    ensures var es := Sent(id, PaintEvent(mouseDown, s.drawing, pixel, last));
      SessionEvents(es) && Run(s, es).drawing == mouseDown
  {
    var es := Sent(id, PaintEvent(mouseDown, s.drawing, pixel, last));
    if es != [] {
      RunOne(s, es[0]);
    }
  }

  /** A mouse held still sends one `Drawing` and then nothing: after the
      position is remembered, the same pixel centre produces no event. */
  lemma HeldStillSendsOnce(pixel: Pixel, last: Vec2, again: Pixel)
    requires pixel.center != last && again.center == pixel.center
    ensures PaintEvent(true, true, pixel, last) == Some(Drawing(pixel))
    ensures PaintEvent(true, true, again, pixel.center) == None
  {
  }

  /** The events the U and R keys send in one frame: `Undo` first, then a
      `Redo` with no pixels (the server fills them in). */
  function KeyEvents(id: Int32, undoPressed: bool, redoPressed: bool): (es: seq<Event>)
    ensures SessionEvents(es)
    ensures |es| == (if undoPressed then 1 else 0) + (if redoPressed then 1 else 0)
    ensures forall i | 0 <= i < |es| :: es[i].playerId == id
    ensures undoPressed ==> es[0] == Event(id, "undo", Undo)
    ensures redoPressed ==> es[|es| - 1] == Event(id, "redo", Redo([]))
  {
    (if undoPressed then [Event(id, "undo", Undo)] else [])
    + (if redoPressed then [Event(id, "redo", Redo([]))] else [])
  }

  /** Pressing U and R in the same frame leaves the player's session as it
      was, and the server forwards the undo and then a redo carrying the
      very stroke that was undone. */
  lemma UndoRedoKeysRestore(s: SessionValue, id: Int32)
    requires s.scribbles != []
    ensures var es := KeyEvents(id, true, true);
      && Run(s, es) == s
      && Emitted(s, es) == [Event(id, "undo", Undo), Event(id, "redo", Redo(s.scribbles[|s.scribbles| - 1]))]
  {
    var u := Event(id, "undo", Undo);
    var r := Event(id, "redo", Redo([]));
    var es := KeyEvents(id, true, true);
    assert es == [u] + [r];
    var t := SessionStep(s, u).next;
    assert Run(s, es) == Run(t, [r]) by {
      RunAppend(s, [u], [r]);
      RunOne(s, u);
    }
    assert Run(t, [r]) == s by {
      RunOne(t, r);
      UndoRedoInverse(s, u, r);
    }
    assert Emitted(s, es) == Emitted(s, [u]) + Emitted(t, [r]) by {
      EmittedAppend(s, [u], [r]);
      RunOne(s, u);
    }
    assert Emitted(s, [u]) == [u] by {
      RunOne(s, u);
    }
    assert Emitted(t, [r]) == [Event(id, "redo", Redo(s.scribbles[|s.scribbles| - 1]))] by {
      RunOne(t, r);
    }
  }

  /** The paint screen's globals that the input handling uses. */
  class Painter {
    var lastMousePos: Vec2
    /** The pencil radius: a float32 in the source that only ever moves by
        one from 10, so a whole number here. */
    var pixelSize: int
    var selectedColor: Color

    /** The globals' initial values: the origin, size 10, black. */
    constructor ()
      ensures lastMousePos == Vec2(0.0, 0.0) && pixelSize == 10 && selectedColor == Color(0, 0, 0, 255)
    {
      lastMousePos := Vec2(0.0, 0.0);
      pixelSize := 10;
      selectedColor := Color(0, 0, 0, 255);
    }

    /** `HandlePainting`: send the frame's stroke event for `me`, and
        remember the position whenever a `Drawing` is sent. */
    method HandlePainting(client: Client, mouseDown: bool, mousePos: Vec2)
      modifies this`lastMousePos, client`outgoing
      ensures var r := PaintEvent(mouseDown, client.me.drawing, Pixel(mousePos, pixelSize as real, selectedColor), old(lastMousePos));
        && client.outgoing == old(client.outgoing) + Sent(client.me.id, r)
        && lastMousePos == (if r.Some? && r.value.Drawing? then mousePos else old(lastMousePos))
    {
      var me := client.me;
      if mouseDown {
        var newPixel := Pixel(mousePos, pixelSize as real, selectedColor);
        if !me.drawing {
          client.outgoing := client.outgoing + [Event(me.id, "started", Started)];
        } else if newPixel.center != lastMousePos {
          client.outgoing := client.outgoing + [Event(me.id, "drawing", Drawing(newPixel))];
          lastMousePos := mousePos;
        }
      } else {
        if me.drawing {
          client.outgoing := client.outgoing + [Event(me.id, "done", Done)];
        }
      }
    }

    /** The U and R keys of `Input`. */
    method UndoRedoKeys(client: Client, undoPressed: bool, redoPressed: bool)
      modifies client`outgoing
      ensures client.outgoing == old(client.outgoing) + KeyEvents(client.me.id, undoPressed, redoPressed)
    {
      if undoPressed {
        client.outgoing := client.outgoing + [Event(client.me.id, "undo", Undo)];
      }
      if redoPressed {
        client.outgoing := client.outgoing + [Event(client.me.id, "redo", Redo([]))];
      }
    }

    /** The `=` and `-` keys of `Input`, on the frames where they act: one
        larger, then one smaller if still above one; the size never drops
        below one. */
    method PencilKeys(growDown: bool, shrinkDown: bool, onBeat: bool)
      requires pixelSize >= 1
      modifies this`pixelSize
      ensures pixelSize >= 1
      ensures var grown := if growDown && onBeat then old(pixelSize) + 1 else old(pixelSize);
        pixelSize == if shrinkDown && onBeat && grown > 1 then grown - 1 else grown
    {
      if growDown && onBeat {
        pixelSize := pixelSize + 1;
      }
      if shrinkDown && pixelSize > 1 && onBeat {
        pixelSize := pixelSize - 1;
      }
    }
  }

  /** `GetCache`: no cache when the player has none; otherwise the cache at
      `index`, given a render target (`loaded`, what `LoadRenderTexture`
      returns) the first time it is asked for and left as it is after. */
  method GetCache(player: Player, index: int, loaded: Texture) returns (c: Cache?)
    requires |player.cached| == 0 || 0 <= index < |player.cached|
    modifies if |player.cached| > 0 then {player.cached[index]} else {}
    ensures c == null <==> |player.cached| == 0
    ensures c != null ==>
      && c == player.cached[index] && !c.empty && c.drawing == old(c.drawing)
      && c.texture == (if old(c.empty) then loaded else old(c.texture))
  {
    if |player.cached| == 0 {
      return null;
    }
    c := player.cached[index];
    if c.empty {
      c.texture := loaded;
      c.empty := false;
    }
  }
}
