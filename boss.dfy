/** The boss: a random walk whose velocity is redrawn every `interval`
    frames, a fade-in, a buff countdown, and death once its life is spent. */
module Bosses {
  import opened Geometry
  import opened Hud
  import opened Explosions

  /** Life at spawn, the fade-in cap, and the score for a kill. */
  const BossLife: int := 1000
  const MaxLate: int := 250
  const KillBonus: int := 100

  /** Ranges of the draws `randint(200, 400)` and `randint(-6, 6)`. */
  const MinInterval: int := 200
  const MaxInterval: int := 400
  const MaxSpeed: int := 6

  /** Ranges of the spawn centre draws `randint(WIDTH//3, WIDTH//3*2)` and
      `randint(HEIGHT//3, HEIGHT//3*2)`. */
  const MinSpawnX: int := WIDTH / 3
  const MaxSpawnX: int := WIDTH / 3 * 2
  const MinSpawnY: int := HEIGHT / 3
  const MaxSpawnY: int := HEIGHT / 3 * 2

  /** The keys of `act_mode` and the countdown each one sets. */
  datatype Mode = DomainExpansion | Nomal

  function ActLife(m: Mode): (n: int)
    ensures n == 400 || n == 600
    ensures m == DomainExpansion <==> n == 400
  {
    match m
    case DomainExpansion => 400
    case Nomal => 600
  }

  /** One set of random draws for an interval tick: a velocity and the next
      interval. */
  datatype Draw = Draw(vx: int, vy: int, interval: Period)

  predicate DrawInRange(d: Draw) {
    -MaxSpeed <= d.vx <= MaxSpeed && -MaxSpeed <= d.vy <= MaxSpeed
    && MinInterval <= d.interval <= MaxInterval
  }

  /** The moving part of a boss. */
  datatype Body = Body(rect: Rect, vx: int, vy: int, interval: Period)

  predicate BodyInRange(b: Body) {
    DrawInRange(Draw(b.vx, b.vy, b.interval))
  }

  /** The first part of the movement of one `update`. On an interval tick
      the boss stands still (it moves by a zeroed velocity) and takes the new
      velocity and interval; otherwise it moves by its velocity. */
  function Wander(b: Body, tmr: nat, d: Draw): (r: Body)
    ensures r.rect.w == b.rect.w && r.rect.h == b.rect.h
    ensures tmr % b.interval == 0 ==> r.rect == b.rect && (r.vx, r.vy, r.interval) == (d.vx, d.vy, d.interval)
    ensures tmr % b.interval != 0 ==>
      (r.vx, r.vy, r.interval) == (b.vx, b.vy, b.interval) && r.rect == b.rect.Move(b.vx, b.vy)
  {
    if tmr % b.interval == 0 then Body(b.rect.Move(0, 0), d.vx, d.vy, d.interval)
    else b.(rect := b.rect.Move(b.vx, b.vy))
  }

  /** The last part: out of bounds, the boss moves back by its velocity. */
  function PushBack(b: Body): (r: Body)
    ensures (r.vx, r.vy, r.interval) == (b.vx, b.vy, b.interval)
    ensures r.rect.w == b.rect.w && r.rect.h == b.rect.h
    ensures Inside(b.rect) ==> r == b
    ensures !Inside(b.rect) ==> r.rect.Move(b.vx, b.vy) == b.rect
  {
    if Inside(b.rect) then b else b.(rect := b.rect.Move(-b.vx, -b.vy))
  }

  /** The movement of one `update`. Out of bounds, the boss moves back by its
      velocity, which on an interval tick is the new one it never moved by. */
  function Roam(b: Body, tmr: nat, d: Draw): (r: Body)
    ensures DrawInRange(d) && BodyInRange(b) ==> BodyInRange(r)
    ensures r.rect.w == b.rect.w && r.rect.h == b.rect.h
    ensures Inside(b.rect) ==> Inside(r.rect)
    ensures tmr % b.interval != 0 ==>
      (r.vx, r.vy, r.interval) == (b.vx, b.vy, b.interval)
      && r.rect == (if Inside(b.rect.Move(b.vx, b.vy)) then b.rect.Move(b.vx, b.vy) else b.rect)
    ensures tmr % b.interval == 0 ==>
      (r.vx, r.vy, r.interval) == (d.vx, d.vy, d.interval)
      && r.rect == (if Inside(b.rect) then b.rect else b.rect.Move(-d.vx, -d.vy))
  {
    PushBack(Wander(b, tmr, d))
  }

  /** The movement over consecutive frames `tmr`, `tmr + 1`, ... with one
      set of draws per frame. */
  function RoamN(b: Body, tmr: nat, draws: seq<Draw>): Body
    requires BodyInRange(b)
    requires forall k :: 0 <= k < |draws| ==> DrawInRange(draws[k])
    decreases draws
  {
    if draws == [] then b else RoamN(Roam(b, tmr, draws[0]), tmr + 1, draws[1..])
  }

  /** A boss inside the playfield stays inside however long it roams. */
  lemma {:induction false} RoamsInside(b: Body, tmr: nat, draws: seq<Draw>)
    requires BodyInRange(b)
    requires forall k :: 0 <= k < |draws| ==> DrawInRange(draws[k])
    requires Inside(b.rect)
    ensures Inside(RoamN(b, tmr, draws).rect)
    ensures BodyInRange(RoamN(b, tmr, draws))
    decreases draws
  {
    if draws != [] {
      RoamsInside(Roam(b, tmr, draws[0]), tmr + 1, draws[1..]);
    }
  }

  /** The quirk of the bounds test on an interval tick: a boss outside the
      playfield is pushed against the velocity it just drew, so with any
      non-zero draw it moves although it never moved forward. */
  lemma TickRevertMoves(b: Body, tmr: nat, d: Draw)
    requires tmr % b.interval == 0 && !Inside(b.rect)
    requires d.vx != 0 || d.vy != 0
    ensures Roam(b, tmr, d).rect != b.rect
    ensures Roam(b, tmr, d).rect == b.rect.Move(-d.vx, -d.vy)
  {
    assert b.rect.Move(-d.vx, -d.vy).Left() == b.rect.Left() - d.vx;
  }

  /** The fade-in: the alpha `late` and the flag `check_boot`. */
  datatype Fade = Fade(late: int, boot: bool)

  /** `late` is between 0 and 250, and reaches 250 before the fade ends. */
  predicate FadeOk(f: Fade) {
    0 <= f.late <= MaxLate && (!f.boot ==> f.late == MaxLate)
  }

  /** One frame of the fade: it ends once `late` is 250, and otherwise
      `late` grows by one. */
  function FadeStep(f: Fade): (r: Fade)
    ensures FadeOk(f) ==> FadeOk(r)
  {
    var boot := if f.late == MaxLate then false else f.boot;
    if boot then Fade(f.late + 1, boot) else Fade(f.late, boot)
  }

  function FadeN(f: Fade, n: nat): Fade
    decreases n
  {
    if n == 0 then f else FadeN(FadeStep(f), n - 1)
  }

  function Min(a: int, b: int): int {
    if a <= b then a else b
  }

  /** After `n` frames the alpha is `min(250, late + n)`; the fade is still
      running exactly while `late + n <= 250`, so once over it never
      restarts. */
  lemma {:induction false} FadeAfter(f: Fade, n: nat)
    requires FadeOk(f)
    ensures FadeN(f, n).late == Min(MaxLate, f.late + n)
    ensures FadeN(f, n).boot == (f.boot && f.late + n <= MaxLate)
    decreases n
  {
    if n > 0 {
      FadeAfter(FadeStep(f), n - 1);
    }
  }

  /** Everything one `update` reads or writes of a boss. */
  datatype BossView = BossView(body: Body, fade: Fade, life: int, active: bool, actLife: int)

  /** The velocity and interval are in the ranges of their draws, the fade
      is consistent, and the buff is only on while its countdown is not
      negative. */
  predicate BossOk(v: BossView) {
    BodyInRange(v.body) && FadeOk(v.fade) && (v.active ==> v.actLife >= 0)
  }

  /** One `update` of a boss: roam, count the buff down, fade in. The life is
      only read (the boss dies when it is at most 0). */
  function BossStep(v: BossView, tmr: nat, d: Draw): (r: BossView)
    ensures BossOk(v) && DrawInRange(d) ==> BossOk(r)
  {
    var actLife := v.actLife - 1;
    BossView(Roam(v.body, tmr, d), FadeStep(v.fade), v.life, v.active && actLife >= 0, actLife)
  }

  class Boss {
    var rect: Rect
    var vx: int
    var vy: int
    var interval: Period
    var late: int
    var life: int
    var checkBoot: bool
    var checkAct: bool
    var actLife: int

    function Motion(): Body
      reads this
    {
      Body(rect, vx, vy, interval)
    }

    function Fading(): Fade
      reads this
    {
      Fade(late, checkBoot)
    }

    function View(): BossView
      reads this
    {
      BossView(Motion(), Fading(), life, checkAct, actLife)
    }

    ghost predicate Valid()
      reads this
    {
      BossOk(View())
    }

    /** A new boss centred on the drawn `(cx, cy)`, fully transparent, with the
      drawn velocity and interval; `w` and `h` are the size of its image. */
    constructor (cx: int, cy: int, d: Draw, w: nat, h: nat)
      requires MinSpawnX <= cx <= MaxSpawnX && MinSpawnY <= cy <= MaxSpawnY
      requires DrawInRange(d)
      ensures Valid()
      ensures Motion() == Body(Centered(cx, cy, w, h), d.vx, d.vy, d.interval)
      ensures Fading() == Fade(0, true)
      ensures life == BossLife && !checkAct && actLife == 0
    {
      rect := Centered(cx, cy, w, h);
      vx, vy := d.vx, d.vy;
      interval := d.interval;
      late := 0;
      life := BossLife;
      checkBoot := true;
      checkAct := false;
      actLife := 0;
    }

    /** The frame loop's activation: a boss whose buff is off takes the
      countdown of the chosen mode. (The domain is added by the loop.) */
    method Activate(m: Mode)
      requires Valid() && !checkAct
      modifies this`checkAct, this`actLife
      ensures Valid()
      ensures checkAct && actLife == ActLife(m)
    {
      checkAct := true;
      actLife := ActLife(m);
    }

    /** `update(tmr, exps, score)`: roam, count the buff down, fade in, and
      die once the life is spent, adding an explosion of life 150 and 100
      points. `d` is the draw used on an interval tick. */
    method Update(tmr: nat, d: Draw, score: Score, exps: seq<Explosion>)
      returns (killed: bool, exps': seq<Explosion>)
      requires Valid() && DrawInRange(d)
      modifies this, score
      ensures Valid()
      ensures View() == BossStep(old(View()), tmr, d)
      ensures killed <==> life <= 0
      ensures score.value == old(score.value) + (if killed then KillBonus else 0)
      ensures |exps'| == |exps| + (if killed then 1 else 0) && exps'[..|exps|] == exps
      ensures forall k :: |exps| <= k < |exps'| ==> fresh(exps'[k]) && exps'[k].life == BossBlast
    {
      WanderStep(tmr, d);
      BuffStep();
      FadeIn();
      killed := life <= 0;
      exps' := exps;
      if killed {
        var e := new Explosion(BossBlast);
        exps' := exps + [e];
        score.value := score.value + KillBonus;
      }
      PushBackStep();
    }

    /** Lines 296-298 of `update`: the buff countdown. */
    method BuffStep()
      modifies this`actLife, this`checkAct
      ensures actLife == old(actLife) - 1 && checkAct == (old(checkAct) && actLife >= 0)
    {
      actLife := actLife - 1;
      if actLife < 0 {
        checkAct := false;
      }
    }

    /** Lines 299-303 of `update`: the fade-in. */
    method FadeIn()
      modifies this`late, this`checkBoot
      ensures Fading() == FadeStep(old(Fading()))
    {
      if late == MaxLate {
        checkBoot := false;
      }
      if checkBoot {
        late := late + 1;
      }
    }

    /** Lines 288-295 of `update`: the interval tick or the move. */
    method WanderStep(tmr: nat, d: Draw)
      modifies this`rect, this`vx, this`vy, this`interval
      ensures Motion() == Wander(old(Motion()), tmr, d)
    {
      if tmr % interval == 0 {
        vx, vy := 0, 0;
        rect := rect.Move(vx, vy);
        vx, vy := d.vx, d.vy;
        interval := d.interval;
      } else {
        rect := rect.Move(vx, vy);
      }
    }

    /** Lines 308-309 of `update`: move back by the velocity when out of bounds. */
    method PushBackStep()
      modifies this`rect
      ensures Motion() == PushBack(old(Motion()))
    {
      if CheckBound(rect) != (true, true) {
        rect := rect.Move(-vx, -vy);
      }
    }
  }
}
