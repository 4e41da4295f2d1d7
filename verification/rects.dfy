/** The axis-aligned rectangle of the `scene` library, reduced to what
    the game uses: an origin and a size, whose extremes are taken on
    whichever side the (possibly negative) size puts them. */
module Rects {
  import opened Analytic
  import opened Vectors

  datatype Rect = Rect(x: real, y: real, w: real, h: real) {
    function MinX(): real { Min(x, x + w) }
    function MaxX(): real { if x < x + w then x + w else x }
    function MinY(): real { Min(y, y + h) }
    function MaxY(): real { if y < y + h then y + h else y }
    function Center(): Vec { Vec(x + w / 2.0, y + h / 2.0) }
  }
}
