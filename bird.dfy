/** The player's avatar (`Bird`): movement with the four cardinal keys, the
    facing direction, life, and the buff countdown. */
module Avatar {
  import opened Geometry

  /** The key table `delta`, in its order: up, down, left, right. A key state
      is the list of the four held flags in that order. */
  const Delta: seq<(int, int)> := [(0, -1), (0, 1), (-1, 0), (1, 0)]

  /** The avatar's `speed`, fixed at construction. */
  const Speed: int := 10

  /** Life and maximum life at construction. */
  const MaxLife: int := 100

  /** The directions that have an image: the keys of `imgs`. */
  const Facings: set<(int, int)> :=
    {(1, 0), (1, -1), (0, -1), (-1, -1), (-1, 0), (-1, 1), (0, 1), (1, 1)}

  /** The sum of the unit moves of the held keys among the first `n`. */
  function HeldSum(keys: seq<bool>, n: nat): (int, int)
    requires n <= |keys| && n <= |Delta|
  {
    if n == 0 then (0, 0)
    else
      var s := HeldSum(keys, n - 1);
      if keys[n - 1] then (s.0 + Delta[n - 1].0, s.1 + Delta[n - 1].1) else s
  }

  /** The avatar's rectangle after one step: moved by `Speed` times the summed
      key vector, or left where it was when that move lands outside. */
  function StepRect(r: Rect, keys: seq<bool>): (next: Rect)
    requires |keys| == |Delta|
    ensures next.w == r.w && next.h == r.h
    ensures Inside(r) ==> Inside(next)
    ensures next == r || Inside(next)
  {
    var m := HeldSum(keys, |Delta|);
    var moved := r.Move(Speed * m.0, Speed * m.1);
    if Inside(moved) then moved else r
  }

  /** The facing direction after one step. */
  function StepFacing(dire: (int, int), keys: seq<bool>): (next: (int, int))
    requires |keys| == |Delta|
    ensures dire in Facings ==> next in Facings
  {
    HeldSumIsFacing(keys);
    var m := HeldSum(keys, |Delta|);
    if m == (0, 0) then dire else m
  }

  /** The rectangle after a sequence of steps. */
  function Walk(r: Rect, trail: seq<seq<bool>>): Rect
    requires forall k :: 0 <= k < |trail| ==> |trail[k]| == |Delta|
    decreases trail
  {
    if trail == [] then r else Walk(StepRect(r, trail[0]), trail[1..])
  }

  /** A non-zero summed key vector is one of the eight image directions: up
      and down (left and right) cancel, so each component is -1, 0 or 1. */
  lemma HeldSumIsFacing(keys: seq<bool>)
    requires |keys| == |Delta|
    ensures -1 <= HeldSum(keys, |Delta|).0 <= 1 && -1 <= HeldSum(keys, |Delta|).1 <= 1
    ensures HeldSum(keys, |Delta|) != (0, 0) ==> HeldSum(keys, |Delta|) in Facings
  {
    assert HeldSum(keys, 0) == (0, 0);
    assert HeldSum(keys, 1) == (0, 0 - (if keys[0] then 1 else 0));
    assert HeldSum(keys, 2) == (0, (if keys[1] then 1 else 0) - (if keys[0] then 1 else 0));
    assert HeldSum(keys, 3) ==
      (0 - (if keys[2] then 1 else 0),
       (if keys[1] then 1 else 0) - (if keys[0] then 1 else 0));
    assert HeldSum(keys, 4) ==
      ((if keys[3] then 1 else 0) - (if keys[2] then 1 else 0),
       (if keys[1] then 1 else 0) - (if keys[0] then 1 else 0));
  }

  /** The facing direction stays one of the eight image directions. */
  lemma StepFacingIsFacing(dire: (int, int), keys: seq<bool>)
    requires |keys| == |Delta| && dire in Facings
    ensures StepFacing(dire, keys) in Facings
    ensures StepFacing(dire, keys) != dire ==> StepFacing(dire, keys) == HeldSum(keys, |Delta|) != (0, 0)
  {
    HeldSumIsFacing(keys);
  }

  /** A step either makes the whole move or restores the rectangle exactly. */
  lemma StepIsWholeMoveOrNone(r: Rect, keys: seq<bool>)
    requires |keys| == |Delta|
    ensures var m := HeldSum(keys, |Delta|);
            StepRect(r, keys) == r || StepRect(r, keys) == r.Move(Speed * m.0, Speed * m.1)
    ensures !Inside(r.Move(Speed * HeldSum(keys, |Delta|).0, Speed * HeldSum(keys, |Delta|).1))
            ==> StepRect(r, keys) == r
  {
  }

  /** An avatar that starts inside the playfield stays inside, step after step. */
  lemma {:induction false} WalkStaysInside(r: Rect, trail: seq<seq<bool>>)
    requires forall k :: 0 <= k < |trail| ==> |trail[k]| == |Delta|
    requires Inside(r)
    ensures Inside(Walk(r, trail))
    decreases trail
  {
    if trail != [] {
      WalkStaysInside(StepRect(r, trail[0]), trail[1..]);
    }
  }

  /** A buff after `n` updates, as the avatar and the boss count it: the
      countdown drops by one and the flag is cleared once it is negative. */
  function BuffAfter(active: bool, actLife: int, n: nat): (r: (bool, int))
    ensures r.1 == actLife - n
    ensures r.0 <==> active && (n == 0 || actLife - n >= 0)
    decreases n
  {
    if n == 0 then (active, actLife)
    else
      var left := actLife - 1;
      BuffAfter(active && left >= 0, left, n - 1)
  }

  class Bird {
    var rect: Rect
    var dire: (int, int)
    const speed: int
    var life: int
    const maxLife: int
    var checkAct: bool
    var actLife: int

    /** The facing direction has an image, the speed is the constructor's,
        and the buff flag is only set while its countdown is non-negative. */
    ghost predicate Valid()
      reads this
    {
      dire in Facings && speed == Speed && (checkAct ==> actLife >= 0)
    }

    /** A new avatar centred on `xy`; `w` and `h` are the size of its image. */
    constructor (xy: (int, int), w: nat, h: nat)
      ensures Valid()
      ensures rect == Centered(xy.0, xy.1, w, h) && dire == (1, 0)
      ensures life == MaxLife && maxLife == MaxLife && !checkAct && actLife == 0
    {
      rect := Centered(xy.0, xy.1, w, h);
      dire := (1, 0);
      speed := Speed;
      life := MaxLife;
      maxLife := MaxLife;
      checkAct := false;
      actLife := 0;
    }

    /** One frame of `update`: move by each held key, undo every move when
        the result is out of bounds, turn towards the summed key vector when
        it is non-zero, and count the buff down. */
    method Update(keys: seq<bool>)
      requires Valid() && |keys| == |Delta|
      modifies this
      ensures Valid()
      ensures rect == StepRect(old(rect), keys)
      ensures dire == StepFacing(old(dire), keys)
      ensures actLife == old(actLife) - 1
      ensures checkAct == (old(checkAct) && actLife >= 0)
      ensures life == old(life)
    {
      var sumMv := MoveHeld(keys);
      assert StepRect(old(rect), keys) == if Inside(rect) then rect else old(rect);
      if CheckBound(rect) != (true, true) {
        UndoHeld(keys);
      }
      if !(sumMv.0 == 0 && sumMv.1 == 0) {
        HeldSumIsFacing(keys);
        dire := sumMv;
      }
      actLife := actLife - 1;
      if actLife < 0 {
        checkAct := false;
      }
    }

    /** The first walk over the key table: move by each held key's unit move
        times the speed, and sum the unit moves. */
    method MoveHeld(keys: seq<bool>) returns (sumMv: (int, int))
      requires Valid() && |keys| == |Delta|
      modifies this`rect
      ensures sumMv == HeldSum(keys, |Delta|)
      ensures rect == old(rect).Move(Speed * sumMv.0, Speed * sumMv.1)
    {
      sumMv := (0, 0);
      var i := 0;
      while i < |Delta|
        invariant 0 <= i <= |Delta|
        invariant sumMv == HeldSum(keys, i)
        invariant rect == old(rect).Move(Speed * sumMv.0, Speed * sumMv.1)
      {
        if keys[i] {
          rect := rect.Move(speed * Delta[i].0, speed * Delta[i].1);
          sumMv := (sumMv.0 + Delta[i].0, sumMv.1 + Delta[i].1);
        }
        i := i + 1;
      }
    }

    /** The second walk over the key table: move back by each held key. */
    method UndoHeld(keys: seq<bool>)
      requires Valid() && |keys| == |Delta|
      modifies this`rect
      ensures var m := HeldSum(keys, |Delta|); old(rect) == rect.Move(Speed * m.0, Speed * m.1)
    {
      var i := 0;
      while i < |Delta|
        invariant 0 <= i <= |Delta|
        invariant old(rect) == rect.Move(Speed * HeldSum(keys, i).0, Speed * HeldSum(keys, i).1)
      {
        if keys[i] {
          rect := rect.Move(-speed * Delta[i].0, -speed * Delta[i].1);
        }
        i := i + 1;
      }
    }
  }
}
