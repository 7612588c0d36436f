/** Enemies: spawned at the top edge, they descend until they pass a stop line
    drawn at spawn and then hold their height. */
module Enemies {
  import opened Geometry
  import opened Groups

  /** The two values of `state`: "down" and "stop". */
  datatype Phase = Down | Stop

  /** Downward speed while descending. */
  const DescentSpeed: int := 6

  /** Bounds of the spawn draws `randint(50, HEIGHT/2)` and `randint(50, 300)`. */
  const MinBound: int := 50
  const MaxBound: int := HEIGHT / 2
  const MinInterval: int := 50
  const MaxInterval: int := 300

  /** The vertical part of an enemy: centre height, speed and state. */
  datatype Descent = Descent(cy: int, vy: int, state: Phase)

  /** The speed matches the state, and a stopped enemy is below its stop line. */
  predicate Settled(d: Descent, bound: int) {
    d.vy == (if d.state == Down then DescentSpeed else 0)
    && (d.state == Stop ==> d.cy > bound)
  }

  /** One `update`: past the stop line the enemy stops; then it moves by its speed. */
  function Descend(d: Descent, bound: int): (next: Descent)
    ensures d.cy > bound ==> next == Descent(d.cy, 0, Stop)
    ensures d.cy <= bound ==> next == d.(cy := d.cy + d.vy)
    ensures next.state == Down ==> d.state == Down
  {
    var d1 := if d.cy > bound then d.(vy := 0, state := Stop) else d;
    d1.(cy := d1.cy + d1.vy)
  }

  /** `n` updates in a row. */
  function DescendN(d: Descent, bound: int, n: nat): Descent
    decreases n
  {
    if n == 0 then d else DescendN(Descend(d, bound), bound, n - 1)
  }

  /** An update keeps the enemy settled; above the stop line it descends by
      exactly the descent speed, and once stopped it stays where it is. */
  lemma DescendSettled(d: Descent, bound: int)
    requires Settled(d, bound)
    ensures Settled(Descend(d, bound), bound)
    ensures d.cy <= bound ==> Descend(d, bound) == Descent(d.cy + DescentSpeed, DescentSpeed, Down)
    ensures d.state == Stop ==> Descend(d, bound) == d
  {
  }

  /** Once stopped, an enemy never changes again: no return to "down", zero
      speed and a fixed height, for any number of updates. */
  lemma {:induction false} StoppedStaysPut(d: Descent, bound: int, n: nat)
    requires d.state == Stop && d.vy == 0
    ensures DescendN(d, bound, n) == d
  {
    if n > 0 {
      assert Descend(d, bound) == d;
      StoppedStaysPut(d, bound, n - 1);
    }
  }

  /** A settled enemy that has not passed its stop line has stopped after
      `(bound - cy) / 6 + 2` updates. */
  lemma {:induction false} DescentEnds(d: Descent, bound: int)
    requires Settled(d, bound) && d.cy <= bound
    ensures DescendN(d, bound, (bound - d.cy) / DescentSpeed + 2).state == Stop
    decreases bound - d.cy
  {
    var n := (bound - d.cy) / DescentSpeed + 2;
    var d1 := Descend(d, bound);
    assert d1 == Descent(d.cy + DescentSpeed, DescentSpeed, Down);
    assert DescendN(d, bound, n) == DescendN(d1, bound, n - 1);
    if d1.cy <= bound {
      DescentEnds(d1, bound);
      assert (bound - d1.cy) / DescentSpeed + 2 == n - 1;
    } else {
      assert n - 1 == 1;
      assert DescendN(d1, bound, 1) == DescendN(Descend(d1, bound), bound, 0);
    }
  }

  class Enemy {
    var rect: Rect
    var vy: int
    var state: Phase
    const bound: int
    const interval: Period

    function View(): Descent
      reads this
    {
      Descent(rect.CenterY(), vy, state)
    }

    /** The part of the rect an update never touches: column and size. */
    function Column(): (int, nat, nat)
      reads this
    {
      (rect.x, rect.w, rect.h)
    }

    ghost predicate Valid()
      reads this
    {
      Settled(View(), bound) && MinInterval <= interval <= MaxInterval
    }

    /** A new enemy centred on (x, 0), descending, with its drawn stop line
        and bomb interval; `w` and `h` are the size of its image. */
    constructor (x: int, bound: int, interval: int, w: nat, h: nat)
      requires 0 <= x <= WIDTH
      requires MinBound <= bound <= MaxBound && MinInterval <= interval <= MaxInterval
      ensures Valid()
      ensures rect == Centered(x, 0, w, h) && vy == DescentSpeed && state == Down
      ensures this.bound == bound && this.interval == interval
    {
      rect := Centered(x, 0, w, h);
      vy := DescentSpeed;
      this.bound := bound;
      state := Down;
      this.interval := interval;
    }

    /** `update`: stop once below the stop line, then move by the speed.
        Only the height changes. */
    method Update()
      requires Valid()
      modifies this
      ensures Valid()
      ensures View() == Descend(old(View()), bound)
      ensures rect.x == old(rect.x) && rect.w == old(rect.w) && rect.h == old(rect.h)
      ensures Column() == old(Column())
    {
      DescendSettled(View(), bound);
      if rect.CenterY() > bound {
        vy := 0;
        state := Stop;
      }
      rect := rect.WithCenterY(rect.CenterY() + vy);
    }
  }

  /** `emys.update()`: every enemy of the group takes one update. No enemy
      removes itself. */
  method UpdateGroup(emys: seq<Enemy>)
    requires Distinct(emys)
    requires forall e :: e in emys ==> e.Valid()
    modifies emys
    ensures forall e :: e in emys ==> e.Valid()
    ensures forall k :: 0 <= k < |emys| ==> emys[k].View() == Descend(old(emys[k].View()), emys[k].bound)
    ensures forall k :: 0 <= k < |emys| ==> emys[k].Column() == old(emys[k].Column())
  {
    var i := 0;
    while i < |emys|
      invariant 0 <= i <= |emys|
      invariant forall e :: e in emys ==> e.Valid()
      invariant forall k :: 0 <= k < i ==> emys[k].View() == Descend(old(emys[k].View()), emys[k].bound)
      invariant forall k :: 0 <= k < |emys| ==> emys[k].Column() == old(emys[k].Column())
      invariant forall k :: i <= k < |emys| ==> emys[k].View() == old(emys[k].View())
    {
      emys[i].Update();
      i := i + 1;
    }
  }
}
