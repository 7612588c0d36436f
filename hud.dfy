/** The score counter and the avatar's HP meter. Only their integer state is
    modelled: the score value, and the meter colour chosen from the life. */
module Hud {
  import opened Avatar

  /** `Score`: the value the frame loop and the bosses add to. */
  class Score {
    var value: int

    constructor ()
      ensures value == 0
    {
      value := 0;
    }
  }

  /** The three meter colours: the initial green (181, 255, 20), the
      yellow (251, 202, 77) and the red (255, 0, 0). */
  datatype Color = Green | Yellow | Red

  /** Meter width per point of life. */
  const PixelsPerLife: int := 5

  /** The colour tier of `update`: yellow strictly between 100 and 250
      pixels, red at 100 pixels or less, and otherwise the colour it had. */
  function Tier(c: Color, width: int): (r: Color)
    ensures 100 < width < 250 ==> r == Yellow
    ensures width <= 100 ==> r == Red
    ensures 250 <= width ==> r == c
    ensures c != Green ==> r != Green
  {
    if 100 < width < 250 then Yellow
    else if width <= 100 then Red
    else c
  }

  /** The colour after one `update` per width, in order. */
  function Paint(c: Color, widths: seq<int>): Color {
    if widths == [] then c else Tier(Paint(c, widths[..|widths| - 1]), widths[|widths| - 1])
  }

  /** The colour is never reset to green: once yellow or red, it stays one of
      them whatever the later widths. */
  lemma {:induction false} PaintSticky(c: Color, widths: seq<int>)
    requires c != Green
    ensures Paint(c, widths) != Green
  {
    if widths != [] {
      PaintSticky(c, widths[..|widths| - 1]);
    }
  }

  /** While the life never grows, a meter that started green shows exactly
      the tier of the latest width, as if it were computed afresh. */
  lemma {:induction false} PaintTracksLast(widths: seq<int>)
    requires |widths| > 0
    requires forall i, j :: 0 <= i < j < |widths| ==> widths[j] <= widths[i]
    ensures Paint(Green, widths) == Tier(Green, widths[|widths| - 1])
  {
    var n := |widths| - 1;
    if n > 0 {
      var init := widths[..n];
      PaintTracksLast(init);
      assert init[|init| - 1] == widths[n - 1];
    }
  }

  /** A life that grows again does not bring the green back. */
  lemma RegainedLifeStaysYellow()
    ensures Paint(Green, [200, 300]) == Yellow
  {
    assert [200, 300][..1] == [200];
    assert [200][..0] == [];
  }

  /** `HitPoint`: the meter of one avatar. Its width is fixed from the life at
      construction; the colour follows the life on every update. */
  class HitPoint {
    const unit: Bird
    const width: int
    var color: Color

    constructor (unit: Bird)
      ensures this.unit == unit && width == unit.life * PixelsPerLife && color == Green
    {
      this.unit := unit;
      width := unit.life * PixelsPerLife;
      color := Green;
    }

    /** `update(unit)`: recolour by the life of the given unit. */
    method Update(unit: Bird)
      modifies this`color
      ensures color == Tier(old(color), unit.life * PixelsPerLife)
    {
      var w := unit.life * PixelsPerLife;
      if 100 < w < 250 {
        color := Yellow;
      } else if w <= 100 {
        color := Red;
      }
    }
  }
}
