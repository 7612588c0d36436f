/** Playfield geometry: integer rectangles and the playfield bounds test. */
module Geometry {

  /** Size of the playfield (the game window) in pixels. */
  const WIDTH: int := 1600
  const HEIGHT: int := 900

  /** A positive number of frames: the divisor of the `tmr % interval`
      tests of the enemies and the boss. */
  type Period = n: int | 0 < n witness 1

  /** An integer rectangle, stored the way pygame stores one: the top-left
      corner, a width and a height. Every other attribute is derived. */
  datatype Rect = Rect(x: int, y: int, w: nat, h: nat) {
    function Left(): int { x }
    function Right(): int { x + w }
    function Top(): int { y }
    function Bottom(): int { y + h }
    function CenterX(): int { x + w / 2 }
    function CenterY(): int { y + h / 2 }
    function Center(): (int, int) { (CenterX(), CenterY()) }

    /** `move_ip(dx, dy)`: shift by an integer offset, keeping the size. */
    function Move(dx: int, dy: int): Rect
    {
      Rect(x + dx, y + dy, w, h)
    }

    /** Assigning `centery`: the top edge moves, the size and x stay. */
    function WithCenterY(cy: int): (r: Rect)
      ensures r.CenterY() == cy
      ensures r.x == x && r.w == w && r.h == h
    {
      Rect(x, cy - h / 2, w, h)
    }
  }

  /** A rectangle of the given size whose `center` is assigned (cx, cy). */
  function Centered(cx: int, cy: int, w: nat, h: nat): (r: Rect)
    ensures r.Center() == (cx, cy) && r.w == w && r.h == h
  {
    Rect(cx - w / 2, cy - h / 2, w, h)
  }

  /** `check_bound`: the horizontal and the vertical in-playfield test. */
  function CheckBound(obj: Rect): (r: (bool, bool))
    ensures r.0 <==> 0 <= obj.Left() && obj.Right() <= WIDTH
    ensures r.1 <==> 0 <= obj.Top() && obj.Bottom() <= HEIGHT
  {
    var yoko := if obj.Left() < 0 || WIDTH < obj.Right() then false else true;
    var tate := if obj.Top() < 0 || HEIGHT < obj.Bottom() then false else true;
    (yoko, tate)
  }

  /** The callers' test `check_bound(rect) == (True, True)`. */
  predicate Inside(obj: Rect) {
    CheckBound(obj) == (true, true)
  }

  /** The horizontal answer ignores every vertical attribute and the
      vertical answer ignores every horizontal one. */
  lemma CheckBoundAxesIndependent(a: Rect, b: Rect)
    ensures a.x == b.x && a.w == b.w ==> CheckBound(a).0 == CheckBound(b).0
    ensures a.y == b.y && a.h == b.h ==> CheckBound(a).1 == CheckBound(b).1
  {
  }
}
