/** The frame loop of `main`: the event handling, the spawn rules, the
    collision bookkeeping, and the order of the per-frame updates. Drawing,
    the clock and pygame's event queue are not modelled; what they deliver
    (events, pressed keys, random draws, which sprites overlap, the elapsed
    time test) comes in as parameters. */
module Game {
  import opened Geometry
  import opened Groups
  import opened Avatar
  import opened Enemies
  import opened Explosions
  import opened Hud
  import opened Bosses
  import opened Domains

  /** `Enemy.tf` at start and its growth per spawn. */
  const StartTf: int := 200
  const TfStep: int := 50

  /** The buff: its price, its countdown, and the radius of its domain. */
  const BuffCost: int := 50
  const BuffLife: int := 400
  const BirdDomainRadius: nat := 100
  const BossDomainRadius: nat := 250

  /** Enemies on screen needed before a boss can appear. */
  const BossQuorum: int := 5

  /** Points and damage of the collisions. */
  const EnemyPoints: int := 10
  const BombPoints: int := 1
  const BeamDamage: int := 50
  const DomainDamage: int := 1
  const BombDamage: int := 10

  /** A beam; its flight is not modelled. */
  class Beam {
    constructor () {}
  }

  /** A bomb; its flight is not modelled. */
  class Bomb {
    constructor () {}
  }

  // ----- events -------------------------------------------------------------

  datatype Key = Space | Return | OtherKey
  datatype Event = Quit | KeyDown(key: Key) | OtherEvent

  /** What the event loop of a frame changes: whether it quit, the beams it
      fired, the score, the avatar's buff, and the domains it opened. */
  datatype Intake = Intake(quit: bool, shots: nat, score: int, active: bool, actLife: int, newDomains: nat)

  /** One event. After a quit nothing more is handled. Space fires a beam;
      Return buys the buff when the score is above 50 and the buff is off. */
  function HandleEvent(s: Intake, e: Event): (r: Intake)
    ensures s.quit ==> r == s
    ensures r.shots == s.shots || r.shots == s.shots + 1
    ensures r.score == s.score
            || (r.score == s.score - BuffCost > 0 && !s.active && r.active && r.newDomains == s.newDomains + 1)
    ensures !s.quit && e == KeyDown(Space) ==> r.shots == s.shots + 1
    ensures !s.quit && e == KeyDown(Return) && s.score > BuffCost && !s.active ==>
      r.active && r.actLife == BuffLife && r.score == s.score - BuffCost && r.newDomains == s.newDomains + 1
  {
    if s.quit then s
    else
      match e
      case Quit => s.(quit := true)
      case KeyDown(Space) => s.(shots := s.shots + 1)
      case KeyDown(Return) =>
        if s.score > BuffCost && !s.active then
          s.(score := s.score - BuffCost, active := true, actLife := BuffLife, newDomains := s.newDomains + 1)
        else s
      case _ => s
  }

  /** The events of a frame, in order. */
  function HandleAll(s: Intake, es: seq<Event>): Intake {
    if es == [] then s else HandleEvent(HandleAll(s, es[..|es| - 1]), es[|es| - 1])
  }

  /** A frame's events leave a quit intake alone, add at most one beam each,
      and only ever spend points, never below zero. */
  lemma {:induction false} HandleAllBounds(s: Intake, es: seq<Event>)
    ensures s.quit ==> HandleAll(s, es) == s
    ensures s.shots <= HandleAll(s, es).shots <= s.shots + |es|
    ensures s.score >= 0 ==> 0 <= HandleAll(s, es).score <= s.score
  {
    if es != [] {
      HandleAllBounds(s, es[..|es| - 1]);
    }
  }

  /** Once the loop quits, the later events change nothing. */
  lemma {:induction false} QuitStops(s: Intake, es: seq<Event>, i: int)
    requires 0 <= i <= |es| && HandleAll(s, es[..i]).quit
    ensures HandleAll(s, es) == HandleAll(s, es[..i])
  {
    if i < |es| {
      var n := |es| - 1;
      assert es[..n][..i] == es[..i];
      QuitStops(s, es[..n], i);
      var p := HandleAll(s, es[..n]);
      assert p == HandleAll(s, es[..i]) && p.quit;
      assert HandleAll(s, es) == HandleEvent(p, es[n]);
    } else {
      assert es[..i] == es;
    }
  }

  /** A frame buys the buff at most once, and only a buy changes the score or
      the buff: by exactly 50 points, turning the buff on with a countdown of
      400 and opening one domain. */
  lemma {:induction false} OneBuyPerFrame(s: Intake, es: seq<Event>)
    ensures var r := HandleAll(s, es);
      (r.newDomains == s.newDomains && r.score == s.score && r.active == s.active && r.actLife == s.actLife)
      || (r.newDomains == s.newDomains + 1 && !s.active && s.score > BuffCost
          && r.score == s.score - BuffCost && r.active && r.actLife == BuffLife)
  {
    if es != [] {
      OneBuyPerFrame(s, es[..|es| - 1]);
    }
  }

  /** Buying with 60 points leaves 10 and opens one domain of life 400; a
      second Return in the same frame is a no-op because the buff is on. */
  lemma BuyOnceScenario()
    ensures HandleAll(Intake(false, 0, 60, false, 0, 0), [KeyDown(Return), KeyDown(Return)])
      == Intake(false, 0, 10, true, BuffLife, 1)
  {
    var es := [KeyDown(Return), KeyDown(Return)];
    assert es[..1] == [KeyDown(Return)] && es[..1][..0] == [];
  }

  // ----- the enemy schedule -------------------------------------------------

  /** `Enemy.tf` after the frames 0, ..., n - 1 when no boss is present. */
  function TfAfter(n: nat): (tf: int)
    ensures tf >= StartTf
  {
    if n == 0 then StartTf
    else
      var tf := TfAfter(n - 1);
      if (n - 1) % tf == 0 then tf + TfStep else tf
  }

  /** The closed form of `TfAfter`: 200 before the first frame, 250 up to
      frame 250, and then the next multiple of 50 at or above the frame. */
  function TfAt(n: nat): int {
    if n == 0 then StartTf else if n <= 250 then 250 else (n - 1) / TfStep * TfStep + TfStep
  }

  /** The test `tmr % tf == 0` under the closed form fires at frame 0, at
      frame 250, and then every 50 frames. */
  lemma FiresAt(n: nat)
    ensures n % TfAt(n) == 0 <==> n == 0 || (n >= 250 && n % TfStep == 0)
  {
    if 0 < n < 250 {
      ModBelow(n, TfAt(n));
    } else if n > 250 {
      var t := TfAt(n);
      NextMultiple(n);
      if n < t {
        ModBelow(n, t);
      } else {
        ModSelf(n);
      }
    }
  }

  /** The closed form past frame 250 is the next multiple of 50 at or above
      the frame. */
  lemma NextMultiple(n: int)
    requires n > 0
    ensures var t := (n - 1) / TfStep * TfStep + TfStep;
      n <= t < n + TfStep && (n % TfStep == 0 <==> n == t)
  {
    var q, r := (n - 1) / 50, (n - 1) % 50;
    assert n - 1 == q * 50 + r && 0 <= r < 50;
    if r == 49 {
      assert n == (q + 1) * 50;
    } else {
      assert n == q * 50 + (r + 1);
    }
  }

  lemma ModSelf(a: int)
    requires a > 0
    ensures a % a == 0
  {
  }

  /** The closed form takes the step of the spawn rule. */
  lemma TfAtStep(n: nat)
    requires n > 0
    ensures TfAt(n) == TfAt(n - 1) + (if (n - 1) % TfAt(n - 1) == 0 then TfStep else 0)
  {
    var m := n - 1;
    FiresAt(m);
    if m >= 250 {
      var q, r := m / TfStep, m % TfStep;
      assert m == q * TfStep + r;
      if r == 0 {
        assert (m - 1) / TfStep == q - 1;
      } else {
        assert (m - 1) / TfStep == q;
      }
    }
  }

  /** Without bosses, `tf` is the closed form, so an enemy appears at frame
      0, at frame 250, and then every 50 frames: raising `tf` does not make
      spawning rarer. */
  lemma {:induction false} SpawnSchedule(n: nat)
    ensures TfAfter(n) == TfAt(n)
    ensures n % TfAfter(n) == 0 <==> n == 0 || (n >= 250 && n % TfStep == 0)
  {
    if n > 0 {
      SpawnSchedule(n - 1);
      TfAtStep(n);
    }
    FiresAt(n);
  }

  lemma ModBelow(a: int, b: int)
    requires 0 < a < b
    ensures a % b == a
  {
  }

  /** The bomb rule of one enemy: a stopped enemy drops a bomb on the frames
      that are multiples of its interval. */
  predicate Drops(state: Phase, interval: Period, tmr: nat) {
    state == Stop && tmr % interval == 0
  }

  /** The number of enemies of a group that drop a bomb on frame `tmr`. */
  function Droppers(es: seq<Enemy>, tmr: nat): (n: nat)
    reads es
    ensures n <= |es|
  {
    if es == [] then 0
    else
      var last := es[|es| - 1];
      Droppers(es[..|es| - 1], tmr) + (if Drops(last.state, last.interval, tmr) then 1 else 0)
  }

  /** Descending enemies never drop bombs: only the stopped ones count. */
  lemma {:induction false} OnlyStoppedDrop(es: seq<Enemy>, tmr: nat)
    ensures (forall k :: 0 <= k < |es| ==> es[k].state == Down) ==> Droppers(es, tmr) == 0
  {
    if es != [] {
      var n := |es| - 1;
      OnlyStoppedDrop(es[..n], tmr);
      if forall k :: 0 <= k < |es| ==> es[k].state == Down {
        assert forall k :: 0 <= k < n ==> es[..n][k].state == Down;
      }
    }
  }

  /** The number of domains owned by a boss that overlap the avatar. */
  function BossTouches(ds: seq<Domain>, touch: Domain -> bool): (n: nat)
    ensures n <= |ds|
  {
    if ds == [] then 0
    else
      var last := ds[|ds| - 1];
      BossTouches(ds[..|ds| - 1], touch) + (if touch(last) && last.owner.OfBoss? then 1 else 0)
  }

  /** Domains opened by the avatar never hurt it: with only such domains, no
      touch counts. */
  lemma {:induction false} OwnDomainsHarmless(ds: seq<Domain>, touch: Domain -> bool)
    requires forall k :: 0 <= k < |ds| ==> ds[k].owner.OfBird?
    ensures BossTouches(ds, touch) == 0
  {
    if ds != [] {
      var n := |ds| - 1;
      assert forall k :: 0 <= k < n ==> ds[..n][k].owner.OfBird?;
      OwnDomainsHarmless(ds[..n], touch);
    }
  }

  /** `n` new explosions with life `life`. */
  method Blasts(n: nat, life: int) returns (bs: seq<Explosion>)
    ensures |bs| == n && Distinct(bs)
    ensures forall k :: 0 <= k < n ==> fresh(bs[k]) && bs[k].life == life && bs[k].frame == 0
  {
    bs := [];
    while |bs| < n
      invariant |bs| <= n && Distinct(bs)
      invariant forall k :: 0 <= k < |bs| ==> fresh(bs[k]) && bs[k].life == life && bs[k].frame == 0
    {
      var e := new Explosion(life);
      DistinctConcat(bs, [e]);
      bs := bs + [e];
    }
  }

  // ----- the game -----------------------------------------------------------


  /** The random draws of one frame: a new enemy's centre x, stop line, bomb
      interval and image size; whether 30 seconds have passed; a new boss's
      centre, velocity and interval, and image size; and an activation mode. */
  datatype Spawns = Spawns(x: int, bound: int, interval: int, enemySize: (nat, nat),
                           after30s: bool, cx: int, cy: int, bossDraw: Draw, bossSize: (nat, nat), mode: Mode)

  /** The ranges of those draws. */
  predicate SpawnsOk(s: Spawns) {
    0 <= s.x <= WIDTH && MinBound <= s.bound <= MaxBound
    && Enemies.MinInterval <= s.interval <= Enemies.MaxInterval
    && MinSpawnX <= s.cx <= MaxSpawnX && MinSpawnY <= s.cy <= MaxSpawnY && DrawInRange(s.bossDraw)
  }

  /** Which sprites overlap in a frame: enemy and beam, bomb and beam, boss
      and beam, a domain and the avatar, a bomb and the avatar. */
  datatype Hits = Hits(enemy: (Enemy, Beam) -> bool, bomb: (Bomb, Beam) -> bool, boss: (Boss, Beam) -> bool,
                       domain: Domain -> bool, bombOnBird: Bomb -> bool)

  /** Which beams and bombs their own `update` kills (they left the playfield
      or ran out), and the boss's draw on an interval tick. */
  datatype Moves = Moves(beamGone: Beam -> bool, bombGone: Bomb -> bool, bossDraw: Draw)

  class Game {
    const score: Score
    const bird: Bird
    const hp: HitPoint
    var bombs: seq<Bomb>
    var beams: seq<Beam>
    var exps: seq<Explosion>
    var emys: seq<Enemy>
    var bosses: seq<Boss>
    var domains: seq<Domain>
    var tmr: nat
    var tf: int

    /** Every sprite is valid, the meter shows the avatar, the groups the
        updates walk hold each sprite once, at most one boss is present, and
        `tf` is a multiple of 50 from 200 up. */
    ghost predicate Valid()
      reads this`emys, this`bosses, this`exps, this`domains, this`tf, bird, emys, bosses
    {
      BirdOk() && EnemiesOk() && BossesOk() && ExpsOk() && DomainsOk() && TfOk()
    }

    ghost predicate BirdOk()
      reads bird
    {
      bird.Valid() && hp.unit == bird
    }

    ghost predicate EnemiesOk()
      reads this`emys, emys
    {
      Distinct(emys) && forall e :: e in emys ==> e.Valid()
    }

    ghost predicate BossesOk()
      reads this`bosses, bosses
    {
      |bosses| <= 1 && forall b :: b in bosses ==> b.Valid()
    }

    ghost predicate ExpsOk()
      reads this`exps
    {
      Distinct(exps)
    }

    ghost predicate DomainsOk()
      reads this`domains
    {
      Distinct(domains)
    }

    ghost predicate TfOk()
      reads this`tf
    {
      StartTf <= tf && tf % TfStep == 0
    }

    /** The set-up of `main`: the avatar at (900, 400), its meter, empty groups. */
    constructor (birdSize: (nat, nat))
      ensures Valid() && fresh(score) && fresh(bird) && fresh(hp)
      ensures score.value == 0 && bird.life == MaxLife && !bird.checkAct
      ensures hp.color == Green && bird.dire == (1, 0) && bird.actLife == 0
      ensures bird.rect.Center() == (900, 400)
      ensures bombs == [] && beams == [] && exps == [] && emys == [] && bosses == [] && domains == []
      ensures tmr == 0 && tf == StartTf == TfAfter(0)
    {
      score := new Score();
      var b := new Bird((900, 400), birdSize.0, birdSize.1);
      bird := b;
      hp := new HitPoint(b);
      bombs, beams, exps, emys, bosses, domains := [], [], [], [], [], [];
      tmr := 0;
      tf := StartTf;
    }
  

    /** The intake the event loop starts from. */
    function Before(): Intake
      reads this, score, bird
    {
      Intake(false, 0, score.value, bird.checkAct, bird.actLife, 0)
    }

    /** The event loop: Space adds a beam; Return with more than 50 points
        and the buff off buys the buff (50 points, a countdown of 400) and
        opens a domain of radius 100 around the avatar; a quit event ends the
        game at once. */
    method HandleEvents(events: seq<Event>) returns (quit: bool)
      requires Valid()
      modifies this`beams, this`domains, score, bird`checkAct, bird`actLife
      ensures Valid()
      ensures var r := HandleAll(old(Before()), events);
        quit == r.quit && score.value == r.score && bird.checkAct == r.active && bird.actLife == r.actLife
        && |beams| == |old(beams)| + r.shots && |domains| == |old(domains)| + r.newDomains
      ensures beams[..|old(beams)|] == old(beams) && domains[..|old(domains)|] == old(domains)
      ensures forall k :: |old(domains)| <= k < |domains| ==>
        fresh(domains[k]) && domains[k].owner == OfBird(bird)
        && domains[k].rad == BirdDomainRadius && domains[k].life == BuffLife
      ensures forall k :: 0 <= k < |domains| ==> domains[k] in old(domains) || fresh(domains[k])
    {
      ghost var s0 := Before();
      quit := false;
      var i := 0;
      while i < |events|
        invariant 0 <= i <= |events| && Valid()
        invariant var r := HandleAll(s0, events[..i]);
          !r.quit && score.value == r.score && bird.checkAct == r.active && bird.actLife == r.actLife
          && |beams| == |old(beams)| + r.shots && |domains| == |old(domains)| + r.newDomains
        invariant beams[..|old(beams)|] == old(beams) && domains[..|old(domains)|] == old(domains)
        invariant forall k :: |old(domains)| <= k < |domains| ==>
          fresh(domains[k]) && domains[k].owner == OfBird(bird)
          && domains[k].rad == BirdDomainRadius && domains[k].life == BuffLife
        invariant forall k :: 0 <= k < |domains| ==> domains[k] in old(domains) || fresh(domains[k])
      {
        var e := events[i];
        assert events[..i + 1][..i] == events[..i];
        if e == Quit {
          quit := true;
          QuitStops(s0, events, i + 1);
          return;
        }
        ghost var r := HandleAll(s0, events[..i]);
        assert HandleAll(s0, events[..i + 1]) == HandleEvent(r, e);
        Take(e, r);
        i := i + 1;
      }
      assert events[..i] == events;
    }
  

    /** One event other than a quit, from the intake `r0` reached so far. */
    method Take(e: Event, ghost r0: Intake)
      requires Valid() && e != Quit && !r0.quit
      requires score.value == r0.score && bird.checkAct == r0.active && bird.actLife == r0.actLife
      modifies this`beams, this`domains, score, bird`checkAct, bird`actLife
      ensures Valid()
      ensures forall k :: 0 <= k < |domains| ==> domains[k] in old(domains) || fresh(domains[k])
      ensures var r := HandleEvent(r0, e);
        score.value == r.score && bird.checkAct == r.active && bird.actLife == r.actLife && !r.quit
        && |beams| == |old(beams)| + (r.shots - r0.shots)
        && |domains| == |old(domains)| + (r.newDomains - r0.newDomains)
      ensures beams[..|old(beams)|] == old(beams) && domains[..|old(domains)|] == old(domains)
      ensures forall k :: |old(domains)| <= k < |domains| ==>
        fresh(domains[k]) && domains[k].owner == OfBird(bird)
        && domains[k].rad == BirdDomainRadius && domains[k].life == BuffLife
    {
      if e == KeyDown(Space) {
        var b := new Beam();
        beams := beams + [b];
      }
      if e == KeyDown(Return) && score.value > BuffCost && !bird.checkAct {
        score.value := score.value - BuffCost;
        bird.checkAct := true;
        bird.actLife := BuffLife;
        var d := new Domain(BirdDomainRadius, bird.actLife, OfBird(bird));
        DistinctConcat(domains, [d]);
        domains := domains + [d];
      }
    }
  

    /** A new enemy on frames that are multiples of `tf` while no boss is
        present; each spawn raises `tf` by 50. Without a boss, `tf` follows
        the schedule of `TfAfter`. */
    method SpawnEnemy(x: int, bound: int, interval: int, size: (nat, nat)) returns (spawned: bool)
      requires Valid()
      requires 0 <= x <= WIDTH && MinBound <= bound <= MaxBound
      requires Enemies.MinInterval <= interval <= Enemies.MaxInterval
      modifies this`emys, this`tf
      ensures Valid()
      ensures forall k :: 0 <= k < |emys| ==> emys[k] in old(emys) || fresh(emys[k])
      ensures spawned <==> old(tmr % tf == 0) && |bosses| == 0
      ensures tf == old(tf) + (if spawned then TfStep else 0)
      ensures |bosses| == 0 && old(tf) == TfAfter(tmr) ==> tf == TfAfter(tmr + 1)
      ensures |emys| == |old(emys)| + (if spawned then 1 else 0) && emys[..|old(emys)|] == old(emys)
      ensures spawned ==>
        var e := emys[|emys| - 1];
        fresh(e) && e.rect == Centered(x, 0, size.0, size.1) && e.state == Down
        && e.vy == DescentSpeed && e.bound == bound && e.interval == interval
    {
      spawned := tmr % tf == 0 && |bosses| == 0;
      if spawned {
        var e := new Enemy(x, bound, interval, size.0, size.1);
        DistinctConcat(emys, [e]);
        emys := emys + [e];
        tf := tf + TfStep;
      }
    }

    /** A boss once 30 seconds have passed (`after30s`), at least five enemies are
        on screen and no boss is present; so there is never more than one. */
    method SpawnBoss(after30s: bool, cx: int, cy: int, d: Draw, size: (nat, nat)) returns (spawned: bool)
      requires Valid()
      requires MinSpawnX <= cx <= MaxSpawnX && MinSpawnY <= cy <= MaxSpawnY && DrawInRange(d)
      modifies this`bosses
      ensures Valid()
      ensures forall k :: 0 <= k < |bosses| ==> bosses[k] in old(bosses) || fresh(bosses[k])
      ensures spawned <==> after30s && |emys| >= BossQuorum && old(|bosses|) == 0
      ensures !spawned ==> bosses == old(bosses)
      ensures spawned ==> (|bosses| == 1 && fresh(bosses[0]) && bosses[0].life == BossLife
        && bosses[0].Motion() == Body(Centered(cx, cy, size.0, size.1), d.vx, d.vy, d.interval)
        && bosses[0].Fading() == Fade(0, true) && !bosses[0].checkAct)
    {
      spawned := after30s && |emys| >= BossQuorum && |bosses| == 0;
      if spawned {
        var b := new Boss(cx, cy, d, size.0, size.1);
        bosses := [b];
      }
    }

    /** Every stopped enemy drops a bomb on frames that are multiples of its
        interval. */
    method DropBombs()
      requires Valid()
      modifies this`bombs
      ensures |bombs| == |old(bombs)| + Droppers(emys, tmr) && bombs[..|old(bombs)|] == old(bombs)
      ensures forall k :: |old(bombs)| <= k < |bombs| ==> fresh(bombs[k])
    {
      var i := 0;
      while i < |emys|
        invariant 0 <= i <= |emys|
        invariant |bombs| == |old(bombs)| + Droppers(emys[..i], tmr) && bombs[..|old(bombs)|] == old(bombs)
        invariant forall k :: |old(bombs)| <= k < |bombs| ==> fresh(bombs[k])
      {
        var e := emys[i];
        assert emys[..i + 1][..i] == emys[..i];
        if Drops(e.state, e.interval, tmr) {
          var b := new Bomb();
          bombs := bombs + [b];
        }
        i := i + 1;
      }
      assert emys[..i] == emys;
    }

    /** A boss whose buff is off turns it on in the drawn mode; in
        "domain_expansion" it opens a domain of radius 250 for the 400 frames
        of that mode. */
    method ActivateBoss(m: Mode)
      requires Valid()
      modifies bosses, this`domains
      ensures Valid()
      ensures forall k :: 0 <= k < |domains| ==> domains[k] in old(domains) || fresh(domains[k])
      ensures |bosses| == 1 ==> bosses[0].checkAct
      ensures forall k :: 0 <= k < |bosses| ==> (bosses[k].Motion() == old(bosses[k].Motion())
        && bosses[k].Fading() == old(bosses[k].Fading()) && bosses[k].life == old(bosses[k].life))
      ensures var opens := |bosses| == 1 && !old(bosses[0].checkAct);
        (opens ==> bosses[0].actLife == ActLife(m))
        && (!opens ==> forall k :: 0 <= k < |bosses| ==> bosses[k].actLife == old(bosses[k].actLife))
        && |domains| == |old(domains)| + (if opens && m == DomainExpansion then 1 else 0)
        && domains[..|old(domains)|] == old(domains)
      ensures forall k :: |old(domains)| <= k < |domains| ==>
        fresh(domains[k]) && domains[k].owner == OfBoss(bosses[0])
        && domains[k].rad == BossDomainRadius && domains[k].life == ActLife(DomainExpansion)
    {
      if |bosses| == 1 {
        var b := bosses[0];
        if !b.checkAct {
          b.Activate(m);
          if m == DomainExpansion {
            var d := new Domain(BossDomainRadius, b.actLife, OfBoss(b));
            DistinctConcat(domains, [d]);
            domains := domains + [d];
          }
        }
      }
    }
  

    /** Adds `n` explosions of life `life` to the group. */
    method AddBlasts(n: nat, life: int)
      requires Valid()
      modifies this`exps
      ensures Valid()
      ensures forall k :: 0 <= k < |exps| ==> exps[k] in old(exps) || fresh(exps[k])
      ensures |exps| == |old(exps)| + n && exps[..|old(exps)|] == old(exps)
      ensures forall k :: |old(exps)| <= k < |exps| ==> fresh(exps[k]) && exps[k].life == life
    {
      var bs := Blasts(n, life);
      DistinctConcat(exps, bs);
      exps := exps + bs;
    }

    /** groupcollide(emys, beams, True, True): each destroyed enemy adds an
        explosion of life 100 and 10 points. Every destroyed enemy costs a
        beam, so the points are at most 10 per beam. */
    method ShootEnemies(hit: (Enemy, Beam) -> bool) returns (crashed: seq<bool>)
      requires Valid()
      modifies this`emys, this`beams, this`exps, score
      ensures Valid()
      ensures forall k :: 0 <= k < |exps| ==> exps[k] in old(exps) || fresh(exps[k])
      ensures |crashed| == |old(emys)|
      ensures forall i :: 0 <= i < |old(emys)| ==> (crashed[i] <==> CrashesAt(old(emys), old(beams), hit, i))
      ensures emys == Remove(old(emys), crashed) && beams == Untouched(old(emys), old(beams), hit)
      ensures forall k :: 0 <= k < |emys| ==> emys[k] in old(emys)
      ensures Count(crashed) + |beams| <= |old(beams)|
      ensures score.value == old(score.value) + EnemyPoints * Count(crashed)
      ensures |exps| == |old(exps)| + Count(crashed) && exps[..|old(exps)|] == old(exps)
      ensures forall k :: |old(exps)| <= k < |exps| ==> fresh(exps[k]) && exps[k].life == EnemyBlast
    {
      var rest;
      crashed, rest := GroupCollide(emys, beams, hit);
      RemoveEnemies(crashed);
      AddBlasts(Count(crashed), EnemyBlast);
      beams := rest;
      score.value := score.value + EnemyPoints * Count(crashed);
    }

    /** The enemies that groupcollide kills leave their group. */
    method RemoveEnemies(gone: seq<bool>)
      requires Valid() && |gone| == |emys|
      modifies this`emys
      ensures Valid()
      ensures emys == Remove(old(emys), gone)
      ensures forall k :: 0 <= k < |emys| ==> emys[k] in old(emys)
      ensures forall i :: 0 <= i < |old(emys)| && gone[i] ==> old(emys)[i] !in emys
    {
      RemoveDistinct(emys, gone);
      forall e | e in Remove(emys, gone) ensures e in emys {
        RemoveMember(emys, gone, e);
        var i :| 0 <= i < |emys| && !gone[i] && emys[i] == e;
      }
      forall i | 0 <= i < |emys| && gone[i] ensures emys[i] !in Remove(emys, gone) {
        RemoveGone(emys, gone, i);
      }
      emys := Remove(emys, gone);
    }

    /** groupcollide(bombs, beams, True, True): each destroyed bomb adds an
        explosion of life 50 and 1 point, again at most one per beam. */
    method ShootBombs(hit: (Bomb, Beam) -> bool) returns (crashed: seq<bool>)
      requires Valid()
      modifies this`bombs, this`beams, this`exps, score
      ensures Valid()
      ensures forall k :: 0 <= k < |exps| ==> exps[k] in old(exps) || fresh(exps[k])
      ensures |crashed| == |old(bombs)|
      ensures forall i :: 0 <= i < |old(bombs)| ==> (crashed[i] <==> CrashesAt(old(bombs), old(beams), hit, i))
      ensures bombs == Remove(old(bombs), crashed) && beams == Untouched(old(bombs), old(beams), hit)
      ensures Count(crashed) + |beams| <= |old(beams)|
      ensures score.value == old(score.value) + BombPoints * Count(crashed)
      ensures |exps| == |old(exps)| + Count(crashed) && exps[..|old(exps)|] == old(exps)
      ensures forall k :: |old(exps)| <= k < |exps| ==> fresh(exps[k]) && exps[k].life == BombBlast
    {
      var rest;
      crashed, rest := GroupCollide(bombs, beams, hit);
      AddBlasts(Count(crashed), BombBlast);
      bombs := Remove(bombs, crashed);
      beams := rest;
      score.value := score.value + BombPoints * Count(crashed);
    }

    /** groupcollide(bosses, beams, False, True): the beams that reach a boss
        are spent, and each boss they reach loses 50 life once, however many
        beams reached it. */
    method ShootBosses(hit: (Boss, Beam) -> bool) returns (crashed: seq<bool>)
      requires Valid()
      modifies bosses, this`beams
      ensures Valid()
      ensures |crashed| == |bosses|
      ensures forall i :: 0 <= i < |bosses| ==> (crashed[i] <==> CrashesAt(bosses, old(beams), hit, i))
      ensures beams == Untouched(bosses, old(beams), hit)
      ensures forall k :: 0 <= k < |bosses| ==>
        bosses[k].life == old(bosses[k].life) - (if crashed[k] then BeamDamage else 0)
        && bosses[k].View().(life := 0) == old(bosses[k].View()).(life := 0)
    {
      var rest;
      crashed, rest := GroupCollide(bosses, beams, hit);
      if |bosses| == 1 && crashed[0] {
        bosses[0].life := bosses[0].life - BeamDamage;
      }
      beams := rest;
    }

    /** spritecollide(bird, domains, False): every boss domain over the avatar
        (`touch`) takes 1 life, unless the avatar's buff is on. */
    method DomainHits(touch: Domain -> bool)
      requires Valid()
      modifies bird`life
      ensures Valid()
      ensures bird.life == old(bird.life) - (if bird.checkAct then 0 else DomainDamage * BossTouches(domains, touch))
    {
      var i := 0;
      while i < |domains|
        invariant 0 <= i <= |domains|
        invariant bird.life == old(bird.life) - (if bird.checkAct then 0 else DomainDamage * BossTouches(domains[..i], touch))
      {
        var d := domains[i];
        assert domains[..i + 1][..i] == domains[..i];
        if touch(d) && d.owner.OfBoss? && !bird.checkAct {
          bird.life := bird.life - DomainDamage;
        }
        i := i + 1;
      }
      assert domains[..i] == domains;
    }

    /** spritecollide(bird, bombs, True): the bombs over the avatar (`touch`)
        are gone, and if there was any the avatar loses 10 life, however many. */
    method BombHits(touch: Bomb -> bool) returns (any: bool)
      requires Valid()
      modifies this`bombs, bird`life
      ensures Valid()
      ensures any <==> exists k :: 0 <= k < |old(bombs)| && touch(old(bombs)[k])
      ensures bombs == Without(old(bombs), touch)
      ensures bird.life == old(bird.life) - (if any then BombDamage else 0)
    {
      any, bombs := SpriteCollide(bombs, touch);
      if any {
        bird.life := bird.life - BombDamage;
      }
    }
  

    /** The collisions of a frame, in the order of `main`; the game is over
        once the avatar's life is at most 0. Points come only with spent
        beams: at most 10 per beam. */
    method Collide(h: Hits) returns (over: bool)
      requires Valid()
      modifies this`emys, this`beams, this`exps, this`bombs, score, bosses, bird`life
      ensures Valid()
      ensures old(score.value) <= score.value <= old(score.value) + EnemyPoints * (|old(beams)| - |beams|)
      ensures over <==> bird.life <= 0
      ensures bird.life <= old(bird.life)
      ensures forall k :: 0 <= k < |emys| ==> emys[k] in old(emys)
      ensures forall k :: 0 <= k < |exps| ==> exps[k] in old(exps) || fresh(exps[k])
    {
      Shoot(h);
      Hurt(h);
      over := bird.life <= 0;
    }

    /** The three beam collisions. */
    method Shoot(h: Hits)
      requires Valid()
      modifies this`emys, this`beams, this`exps, this`bombs, score, bosses
      ensures Valid()
      ensures old(score.value) <= score.value <= old(score.value) + EnemyPoints * (|old(beams)| - |beams|)
      ensures forall k :: 0 <= k < |emys| ==> emys[k] in old(emys)
      ensures forall k :: 0 <= k < |exps| ==> exps[k] in old(exps) || fresh(exps[k])
    {
      var ce := ShootEnemies(h.enemy);
      var cb := ShootBombs(h.bomb);
      var cs := ShootBosses(h.boss);
    }

    /** The two collisions that hurt the avatar. */
    method Hurt(h: Hits)
      requires Valid()
      modifies this`bombs, bird`life
      ensures Valid()
      ensures bombs == Without(old(bombs), h.bombOnBird)
      ensures bird.life == old(bird.life)
        - (if bird.checkAct then 0 else DomainDamage * BossTouches(domains, h.domain))
        - (if exists k :: 0 <= k < |old(bombs)| && h.bombOnBird(old(bombs)[k]) then BombDamage else 0)
    {
      DomainHits(h.domain);
      var any := BombHits(h.bombOnBird);
    }

    /** `bosses.update(tmr, exps, score)` for the group of at most one boss:
        a dead boss leaves the group. */
    method UpdateBoss(d: Draw) returns (killed: bool)
      requires Valid() && DrawInRange(d)
      modifies bosses, score, this`bosses, this`exps
      ensures Valid()
      ensures forall k :: 0 <= k < |exps| ==> exps[k] in old(exps) || fresh(exps[k])
      ensures old(bosses) == [] ==> bosses == [] && exps == old(exps) && !killed && score.value == old(score.value)
      ensures old(bosses) != [] ==>
        var b := old(bosses[0]);
        b.View() == BossStep(old(b.View()), tmr, d) && (killed <==> b.life <= 0)
        && bosses == (if killed then [] else [b])
        && score.value == old(score.value) + (if killed then KillBonus else 0)
      ensures |exps| == |old(exps)| + (if killed then 1 else 0) && exps[..|old(exps)|] == old(exps)
      ensures forall k :: |old(exps)| <= k < |exps| ==> fresh(exps[k]) && exps[k].life == BossBlast
    {
      killed := false;
      if |bosses| == 1 {
        var b := bosses[0];
        var e;
        killed, e := b.Update(tmr, d, score, exps);
        assert e == exps + e[|exps|..];
        DistinctConcat(exps, e[|exps|..]);
        exps := e;
        if killed {
          bosses := [];
        }
      }
    }

    /** `exps.update()`. */
    method UpdateExplosions()
      requires Valid()
      modifies exps, this`exps
      ensures Valid()
    {
      var alive := Explosions.UpdateGroup(exps);
      exps := alive;
    }

    /** `domains.update()`. */
    method UpdateDomains()
      requires Valid()
      modifies domains, this`domains
      ensures Valid()
      ensures exists gone :: |gone| == |old(domains)| && domains == Remove(old(domains), gone)
    {
      var gone, alive := Domains.UpdateGroup(domains);
      RemoveDistinct(domains, gone);
      domains := alive;
    }

    /** `emys.update()`. */
    method UpdateEnemies()
      requires Valid()
      modifies emys
      ensures Valid()
      ensures forall k :: 0 <= k < |emys| ==> emys[k].View() == Descend(old(emys[k].View()), emys[k].bound)
      ensures forall k :: 0 <= k < |emys| ==> emys[k].Column() == old(emys[k].Column())
    {
      Enemies.UpdateGroup(emys);
    }

    /** The updates at the end of a frame, in the order of `main`, and the
        frame counter. */
    method UpdateSprites(keys: seq<bool>, mv: Moves) returns (bossKilled: bool)
      requires Valid() && |keys| == |Delta| && DrawInRange(mv.bossDraw)
      modifies this`beams, this`bombs, this`bosses, this`exps, this`domains, this`tmr
      modifies bird, hp, score, emys, bosses, exps, domains
      ensures Valid()
      ensures tmr == old(tmr) + 1 && tf == old(tf)
      ensures bird.rect == StepRect(old(bird.rect), keys) && bird.life == old(bird.life)
      ensures bird.dire == StepFacing(old(bird.dire), keys)
      ensures bird.actLife == old(bird.actLife) - 1 && bird.checkAct == (old(bird.checkAct) && bird.actLife >= 0)
      ensures emys == old(emys)
      ensures forall k :: 0 <= k < |emys| ==> emys[k].View() == Descend(old(emys[k].View()), emys[k].bound)
      ensures forall k :: 0 <= k < |emys| ==> emys[k].Column() == old(emys[k].Column())
      ensures hp.color == Tier(old(hp.color), bird.life * PixelsPerLife)
      ensures beams == Without(old(beams), mv.beamGone) && bombs == Without(old(bombs), mv.bombGone)
    {
      bossKilled := UpdateMovers(keys, mv);
      UpdateRest(mv);
    }

    /** The first half: the avatar, the beams, the enemies and the boss.
        `main` runs lines 501-518 as one block; it is split here only so that
        each half is a small proof. */
    method UpdateMovers(keys: seq<bool>, mv: Moves) returns (bossKilled: bool)
      requires Valid() && |keys| == |Delta| && DrawInRange(mv.bossDraw)
      modifies this`beams, this`bosses, this`exps, bird, score, emys, bosses
      ensures Valid()
      ensures bird.rect == StepRect(old(bird.rect), keys) && bird.life == old(bird.life)
      ensures bird.actLife == old(bird.actLife) - 1 && bird.checkAct == (old(bird.checkAct) && bird.actLife >= 0)
      ensures bird.dire == StepFacing(old(bird.dire), keys)
      ensures beams == Without(old(beams), mv.beamGone)
      ensures emys == old(emys)
      ensures forall k :: 0 <= k < |emys| ==> emys[k].View() == Descend(old(emys[k].View()), emys[k].bound)
      ensures forall k :: 0 <= k < |emys| ==> emys[k].Column() == old(emys[k].Column())
      ensures forall k :: 0 <= k < |exps| ==> exps[k] in old(exps) || fresh(exps[k])
    {
      bird.Update(keys);
      beams := Without(beams, mv.beamGone);
      UpdateEnemies();
      bossKilled := UpdateBoss(mv.bossDraw);
    }

    /** The second half: the bombs, the explosions, the meter, the domains,
        and the frame counter. */
    method UpdateRest(mv: Moves)
      requires Valid()
      modifies this`bombs, this`exps, this`domains, this`tmr, hp`color, exps, domains
      ensures Valid()
      ensures tmr == old(tmr) + 1
      ensures hp.color == Tier(old(hp.color), bird.life * PixelsPerLife)
      ensures bombs == Without(old(bombs), mv.bombGone)
    {
      UpdateFallout(mv);
      UpdateTail();
    }

    /** The meter, the domains and the frame counter: a further split of the
        second half, again only to keep each proof small. */
    method UpdateTail()
      requires Valid()
      modifies this`domains, this`tmr, hp`color, domains
      ensures Valid()
      ensures tmr == old(tmr) + 1
      ensures hp.color == Tier(old(hp.color), bird.life * PixelsPerLife)
    {
      UpdateMeter();
      UpdateDomains();
      tmr := tmr + 1;
    }

    /** The bombs and the explosions: the other part of that split. */
    method UpdateFallout(mv: Moves)
      requires Valid()
      modifies this`bombs, this`exps, exps
      ensures Valid()
      ensures bombs == Without(old(bombs), mv.bombGone)
    {
      bombs := Without(bombs, mv.bombGone);
      UpdateExplosions();
    }

    /** `hp.update(hp.unit)`. */
    method UpdateMeter()
      requires Valid()
      modifies hp`color
      ensures Valid()
      ensures hp.color == Tier(old(hp.color), bird.life * PixelsPerLife)
    {
      hp.Update(hp.unit);
    }

    /** The spawns, the enemies' bombs and the boss activation of a frame. */
    method Arrivals(sp: Spawns)
      requires Valid() && SpawnsOk(sp)
      modifies this`emys, this`tf, this`bosses, this`bombs, this`domains, bosses
      ensures Valid()
      ensures old(|bosses|) == 0 && old(tf) == TfAfter(tmr) ==> tf == TfAfter(tmr + 1)
      ensures forall k :: 0 <= k < |emys| ==> emys[k] in old(emys) || fresh(emys[k])
      ensures forall k :: 0 <= k < |bosses| ==> bosses[k] in old(bosses) || fresh(bosses[k])
      ensures forall k :: 0 <= k < |domains| ==> domains[k] in old(domains) || fresh(domains[k])
    {
      var spawned := SpawnEnemy(sp.x, sp.bound, sp.interval, sp.enemySize);
      var arrived := SpawnBoss(sp.after30s, sp.cx, sp.cy, sp.bossDraw, sp.bossSize);
      DropBombs();
      ActivateBoss(sp.mode);
    }

    /** One pass of the `while True` loop of `main`: the events, the
        spawns, the bombs, the boss activation, the collisions, the game-over
        test, and the updates. `quit` ends the game inside the event loop,
        `over` after the collisions; either way nothing after it happens.
        While no boss is present, `tf` keeps to the schedule of `TfAfter`. */
    method Frame(events: seq<Event>, keys: seq<bool>, sp: Spawns, h: Hits, mv: Moves)
      returns (quit: bool, over: bool)
      requires Valid() && |keys| == |Delta| && SpawnsOk(sp) && DrawInRange(mv.bossDraw)
      modifies this`beams, this`bombs, this`bosses, this`exps, this`domains, this`emys, this`tmr, this`tf
      modifies bird, hp, score, emys, bosses, exps, domains
      ensures Valid()
      ensures tmr == old(tmr) + (if quit || over then 0 else 1)
      ensures !quit && old(|bosses|) == 0 && old(tf) == TfAfter(old(tmr)) ==>
        tf == TfAfter(old(tmr) + 1)
    {
      over := false;
      quit := HandleEvents(events);
      if quit {
        return;
      }
      Arrivals(sp);
      over := Collide(h);
      if over {
        return;
      }
      var killed := UpdateSprites(keys, mv);
    }
  }
}
