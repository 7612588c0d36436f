/** Explosions: a countdown that alternates between two images every ten
    frames and removes the sprite once it drops below zero. */
module Explosions {
  import opened Groups

  /** Countdowns the frame loop gives its explosions. */
  const EnemyBlast: int := 100
  const BombBlast: int := 50
  const BossBlast: int := 150

  /** The image index `life // 10 % 2`. Python floors both operators, which
      agrees with Dafny's Euclidean ones for these positive divisors. */
  function FrameIndex(life: int): (k: int)
    ensures k == 0 || k == 1
  {
    life / 10 % 2
  }

  /** The image changes every ten frames of countdown: ten frames later the
      other image is shown. */
  lemma FrameAlternates(life: int)
    ensures FrameIndex(life - 10) == 1 - FrameIndex(life)
  {
    assert (life - 10) / 10 == life / 10 - 1;
  }

  /** Countdown steps applied to a group's lives: every life drops by one and
      the sprites whose life falls below zero are gone. */
  function Countdown(lives: seq<int>): (r: seq<int>)
    ensures |r| <= |lives|
    ensures forall k :: 0 <= k < |r| ==> r[k] >= 0
  {
    if lives == [] then []
    else
      var init := Countdown(lives[..|lives| - 1]);
      var l := lives[|lives| - 1] - 1;
      if l < 0 then init else init + [l]
  }

  /** After a countdown step every remaining life is non-negative, each comes
      from a life one higher, and exactly the lives that were at most zero
      are gone. */
  lemma {:induction false} CountdownExact(lives: seq<int>)
    ensures forall x :: x in Countdown(lives) ==> x >= 0 && x + 1 in lives
    ensures forall l :: l in lives && l >= 1 ==> l - 1 in Countdown(lives)
    ensures |Countdown(lives)| == |lives| - CountAtMost(lives, 0)
  {
    if lives != [] {
      var init := lives[..|lives| - 1];
      CountdownExact(init);
      assert lives == init + [lives[|lives| - 1]];
    }
  }

  /** The number of lives at most `m`. */
  function CountAtMost(lives: seq<int>, m: int): (n: nat)
    ensures n <= |lives|
  {
    if lives == [] then 0
    else CountAtMost(lives[..|lives| - 1], m) + (if lives[|lives| - 1] <= m then 1 else 0)
  }

  class Explosion {
    var life: int
    var frame: int

    /** `Explosion(obj, life)`: a countdown at `life`, showing the first image. */
    constructor (life: int)
      ensures this.life == life && frame == 0
    {
      this.life := life;
      frame := 0;
    }

    /** `update`: count down one frame, pick the image, and report whether
        the sprite kills itself. */
    method Update() returns (killed: bool)
      modifies this
      ensures life == old(life) - 1 && frame == FrameIndex(life)
      ensures killed <==> life < 0
    {
      life := life - 1;
      frame := FrameIndex(life);
      killed := life < 0;
    }
  }

  /** The lives of a group, in order. */
  function Lives(exps: seq<Explosion>): (r: seq<int>)
    reads exps
    ensures |r| == |exps|
    ensures forall k :: 0 <= k < |exps| ==> r[k] == exps[k].life
  {
    if exps == [] then [] else Lives(exps[..|exps| - 1]) + [exps[|exps| - 1].life]
  }

  /** The members of a group whose life is not below zero, in order. */
  function Alive(exps: seq<Explosion>): seq<Explosion>
    reads exps
  {
    if exps == [] then []
    else
      var e := exps[|exps| - 1];
      assert forall x :: x in exps[..|exps| - 1] ==> x in exps;
      Alive(exps[..|exps| - 1]) + (if e.life < 0 then [] else [e])
  }

  /** Exactly the members whose life is not below zero stay in the group. */
  lemma {:induction false} AliveMember(exps: seq<Explosion>, e: Explosion)
    ensures e in Alive(exps) <==> e in exps && e.life >= 0
  {
    if exps != [] {
      var init := exps[..|exps| - 1];
      AliveMember(init, e);
      assert exps == init + [exps[|exps| - 1]];
    }
  }

  /** Dropping the members marked below zero is `Alive`. */
  lemma {:induction false} AliveIsRemove(exps: seq<Explosion>, gone: seq<bool>)
    requires |gone| == |exps|
    requires forall k :: 0 <= k < |exps| ==> (gone[k] <==> exps[k].life < 0)
    ensures Alive(exps) == Remove(exps, gone)
  {
    if exps != [] {
      AliveIsRemove(exps[..|exps| - 1], gone[..|exps| - 1]);
    }
  }

  /** When every life of a group dropped by one, the lives of its living
      members are the countdown of the old lives. */
  lemma {:induction false} AliveIsCountdown(exps: seq<Explosion>, before: seq<int>)
    requires |before| == |exps|
    requires forall k :: 0 <= k < |exps| ==> exps[k].life == before[k] - 1
    ensures Lives(Alive(exps)) == Countdown(before)
  {
    if exps != [] {
      var n := |exps| - 1;
      AliveIsCountdown(exps[..n], before[..n]);
      var init := Alive(exps[..n]);
      if exps[n].life >= 0 {
        assert Lives(init + [exps[n]]) == Lives(init) + [exps[n].life] by {
          assert (init + [exps[n]])[..|init|] == init;
        }
      }
    }
  }

  /** `exps.update()`: every explosion counts down; those below zero kill
      themselves. pygame walks a copy of the group, so the group afterwards is
      the walked members without the killed ones. */
  method UpdateGroup(exps: seq<Explosion>) returns (alive: seq<Explosion>)
    requires Distinct(exps)
    modifies exps
    ensures forall k :: 0 <= k < |exps| ==>
      exps[k].life == old(exps[k].life) - 1 && exps[k].frame == FrameIndex(exps[k].life)
    ensures alive == Alive(exps) && Distinct(alive)
    ensures Lives(alive) == Countdown(old(Lives(exps)))
  {
    ghost var before := Lives(exps);
    var gone: seq<bool> := [];
    var i := 0;
    while i < |exps|
      invariant 0 <= i <= |exps| && |gone| == i
      invariant forall k :: 0 <= k < i ==>
        exps[k].life == old(exps[k].life) - 1 && exps[k].frame == FrameIndex(exps[k].life)
      invariant forall k :: i <= k < |exps| ==> exps[k].life == old(exps[k].life)
      invariant forall k :: 0 <= k < i ==> (gone[k] <==> exps[k].life < 0)
    {
      var killed := exps[i].Update();
      gone := gone + [killed];
      i := i + 1;
    }
    alive := Remove(exps, gone);
    AliveIsRemove(exps, gone);
    RemoveDistinct(exps, gone);
    AliveIsCountdown(exps, before);
  }
}
