/** Screen and window coordinates, and the glyph box a gaze point must fall into. */
module Geometry {

  /** A point in integer pixels; whether it is on the screen or on the window depends on use. */
  datatype Point = Point(x: int, y: int)

  /** The rectangle the editor reports for a caret position (`coordsAtPos`). */
  datatype Rect = Rect(left: int, right: int, top: int, bottom: int)

  function Add(a: Point, b: Point): Point
  {
    Point(a.x + b.x, a.y + b.y)
  }

  /** Where the window's top-left corner lies on the screen, from one mouse event that reports the
      same pointer both in screen and in window (client) coordinates. */
  function WindowOrigin(screen: Point, client: Point): (origin: Point)
    ensures Add(client, origin) == screen
  {
    Point(screen.x - client.x, screen.y - client.y)
  }

  /** The gaze point on the window: the gaze point on the screen less the window origin. */
  function ToWindow(gazeOnScreen: Point, origin: Point): (gazeOnWindow: Point)
    ensures Add(gazeOnWindow, origin) == gazeOnScreen
  {
    Point(gazeOnScreen.x - origin.x, gazeOnScreen.y - origin.y)
  }

  /** A gaze sample taken at the very spot of the mouse event that fixed the origin lands on that
      event's client point, whatever the origin is. */
  lemma SampleAtMouseEventLandsOnClient(screen: Point, client: Point)
    ensures ToWindow(screen, WindowOrigin(screen, client)) == client
  {
  }

  /** The box spanned by a line's first glyph (top-left corner) and last glyph (bottom-right
      corner); edges are inside. */
  predicate InGlyphBox(p: Point, first: Rect, last: Rect)
  {
    first.top <= p.y <= last.bottom && first.left <= p.x <= last.right
  }
}
