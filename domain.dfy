/** Domains: circles that follow their owner's centre for a fixed number of
    frames. The avatar's buff opens one around the avatar; a boss in
    "domain_expansion" mode opens one around the boss. */
module Domains {
  import opened Geometry
  import opened Groups
  import opened Avatar
  import opened Bosses

  /** The unit a domain follows. */
  datatype Owner = OfBird(bird: Bird) | OfBoss(boss: Boss)

  /** The owner's rectangle centre. */
  function OwnerCenter(o: Owner): (int, int)
    reads if o.OfBird? then {o.bird} else {}
    reads if o.OfBoss? then {o.boss} else {}
  {
    match o
    case OfBird(b) => b.rect.Center()
    case OfBoss(b) => b.rect.Center()
  }

  class Domain {
    const owner: Owner
    const rad: nat
    var rect: Rect
    var life: int

    /** `Domain(rad, life, unit)`: a 2·rad square surface at the origin. */
    constructor (rad: nat, life: int, owner: Owner)
      ensures this.owner == owner && this.rad == rad && this.life == life
      ensures rect == Rect(0, 0, 2 * rad, 2 * rad)
    {
      this.owner := owner;
      this.rad := rad;
      this.life := life;
      rect := Rect(0, 0, 2 * rad, 2 * rad);
    }

    /** `update`: centre on the owner, count down one frame, and report
        whether the domain kills itself (its owner is never `None`). */
    method Update() returns (killed: bool)
      modifies this`rect, this`life
      ensures rect.Center() == OwnerCenter(owner) && rect.w == 2 * rad && rect.h == 2 * rad
      ensures life == old(life) - 1
      ensures killed <==> life < 0
    {
      var c := OwnerCenter(owner);
      rect := Centered(c.0, c.1, 2 * rad, 2 * rad);
      life := life - 1;
      killed := life < 0;
    }
  }

  /** `domains.update()`: every domain follows its owner and counts down;
      those below zero kill themselves. The walk is over a copy of the group,
      so the group afterwards is the walked domains without the killed ones. */
  method UpdateGroup(ds: seq<Domain>) returns (gone: seq<bool>, alive: seq<Domain>)
    requires Distinct(ds)
    modifies ds
    ensures |gone| == |ds|
    ensures forall k :: 0 <= k < |ds| ==>
      ds[k].life == old(ds[k].life) - 1 && (gone[k] <==> ds[k].life < 0)
    ensures forall k :: 0 <= k < |ds| ==>
      ds[k].rect.Center() == OwnerCenter(ds[k].owner) && ds[k].rect.w == 2 * ds[k].rad && ds[k].rect.h == 2 * ds[k].rad
    ensures alive == Remove(ds, gone)
  {
    gone := [];
    var i := 0;
    while i < |ds|
      invariant 0 <= i <= |ds| && |gone| == i
      invariant forall k :: 0 <= k < i ==>
        ds[k].life == old(ds[k].life) - 1 && (gone[k] <==> ds[k].life < 0)
      invariant forall k :: i <= k < |ds| ==> ds[k].life == old(ds[k].life)
      invariant forall k :: 0 <= k < i ==>
        ds[k].rect.Center() == OwnerCenter(ds[k].owner) && ds[k].rect.w == 2 * ds[k].rad && ds[k].rect.h == 2 * ds[k].rad
    {
      var killed := ds[i].Update();
      gone := gone + [killed];
      i := i + 1;
    }
    alive := Remove(ds, gone);
  }

  /** Whether a domain of the given life is still in its group after `n`
      updates. */
  function Survives(life: int, n: nat): (r: bool)
    ensures r <==> n == 0 || life >= n
    decreases n
  {
    n == 0 || (life - 1 >= 0 && Survives(life - 1, n - 1))
  }

  /** A buff and the domain opened with it at the same countdown end
      together: on the update that takes the countdown below zero, after
      `life + 1` updates. */
  lemma BuffEndsWithDomain(life: int, n: nat)
    requires life >= 0
    ensures BuffAfter(true, life, n).0 == Survives(life, n)
    ensures Survives(life, n) <==> n <= life
  {
  }
}
