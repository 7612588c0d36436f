/** The sprite-group behaviour the frame loop relies on. A pygame group holds
    each sprite at most once and keeps insertion order; `kill()` removes a
    sprite from its group. `groupcollide(ga, gb, dokilla, True)` walks `ga` in
    order and, for each sprite `a`, removes from `gb` every sprite that `a`
    overlaps at that moment, so a sprite of `gb` is consumed by the FIRST
    sprite of `ga` that overlaps it and cannot count for a later one. Which
    pairs overlap is geometry, and is an input here (`hit`). */
module Groups {

  /** A group holds each sprite once. */
  ghost predicate Distinct<T>(s: seq<T>) {
    forall i, j :: 0 <= i < j < |s| ==> s[i] != s[j]
  }

  /** The number of marked positions. */
  function Count(m: seq<bool>): (n: nat)
    ensures n <= |m|
  {
    if m == [] then 0 else Count(m[..|m| - 1]) + (if m[|m| - 1] then 1 else 0)
  }

  /** The members whose mark is false, in their order. */
  function Remove<T>(s: seq<T>, gone: seq<bool>): (r: seq<T>)
    requires |gone| == |s|
    ensures |r| == |s| - Count(gone)
  {
    if s == [] then []
    else Remove(s[..|s| - 1], gone[..|s| - 1]) + (if gone[|s| - 1] then [] else [s[|s| - 1]])
  }

  /** Exactly the unmarked members are kept: a member is kept exactly when
      one of its positions is unmarked. */
  lemma {:induction false} RemoveMember<T>(s: seq<T>, gone: seq<bool>, x: T)
    requires |gone| == |s|
    ensures x in Remove(s, gone) <==> exists i :: 0 <= i < |s| && !gone[i] && s[i] == x
  {
    if s != [] {
      var n := |s| - 1;
      RemoveMember(s[..n], gone[..n], x);
      if exists i :: 0 <= i < |s| && !gone[i] && s[i] == x {
        var i :| 0 <= i < |s| && !gone[i] && s[i] == x;
        if i < n {
          assert s[..n][i] == x && !gone[..n][i];
        }
      }
      if x in Remove(s[..n], gone[..n]) {
        var i :| 0 <= i < n && !gone[..n][i] && s[..n][i] == x;
        assert !gone[i] && s[i] == x;
      }
    }
  }

  /** In a group that holds each sprite once, a killed sprite is gone. */
  lemma RemoveGone<T>(s: seq<T>, gone: seq<bool>, i: int)
    requires |gone| == |s| && Distinct(s) && 0 <= i < |s| && gone[i]
    ensures s[i] !in Remove(s, gone)
  {
    RemoveMember(s, gone, s[i]);
  }

  /** The members that do not satisfy `p`, in their order. */
  function Without<T>(s: seq<T>, p: T -> bool): (r: seq<T>)
    ensures |r| <= |s|
  {
    if s == [] then [] else Without(s[..|s| - 1], p) + (if p(s[|s| - 1]) then [] else [s[|s| - 1]])
  }

  /** Exactly the members that do not satisfy `p` survive the filter. */
  lemma {:induction false} WithoutMember<T>(s: seq<T>, p: T -> bool, x: T)
    ensures x in Without(s, p) <==> x in s && !p(x)
  {
    if s != [] {
      var init := s[..|s| - 1];
      WithoutMember(init, p, x);
      assert s == init + [s[|s| - 1]];
    }
  }

  /** `b` overlaps some member of `xs`. */
  predicate Consumed<A, B>(xs: seq<A>, b: B, hit: (A, B) -> bool) {
    exists i :: 0 <= i < |xs| && hit(xs[i], b)
  }

  /** The members of `ys` that survive a walk over `xs` with removal. */
  function Untouched<A, B>(xs: seq<A>, ys: seq<B>, hit: (A, B) -> bool): seq<B> {
    Without(ys, b => Consumed(xs, b, hit))
  }

  /** Reference definition of groupcollide's result: `xs[i]` is reported (and,
      with dokilla, removed) exactly when it overlaps some member of `ys` that
      no earlier member of `xs` overlaps. */
  ghost predicate CrashesAt<A, B>(xs: seq<A>, ys: seq<B>, hit: (A, B) -> bool, i: int)
    requires 0 <= i < |xs|
  {
    exists j :: 0 <= j < |ys| && hit(xs[i], ys[j]) && !Consumed(xs[..i], ys[j], hit)
  }

  /** Removal preserves the "each sprite once" property of a group. */
  lemma {:induction false} WithoutDistinct<T>(s: seq<T>, p: T -> bool)
    requires Distinct(s)
    ensures Distinct(Without(s, p))
  {
    if s != [] {
      var init := s[..|s| - 1];
      assert Distinct(init);
      WithoutDistinct(init, p);
      var last := s[|s| - 1];
      assert last !in init;
      WithoutMember(init, p, last);
      forall x | x in Without(init, p) ensures x in init { WithoutMember(init, p, x); }
    }
  }

  lemma {:induction false} RemoveDistinct<T>(s: seq<T>, gone: seq<bool>)
    requires |gone| == |s| && Distinct(s)
    ensures Distinct(Remove(s, gone))
  {
    if s != [] {
      var init := s[..|s| - 1];
      assert Distinct(init);
      RemoveDistinct(init, gone[..|s| - 1]);
      var last := s[|s| - 1];
      assert last !in init;
      RemoveMember(init, gone[..|s| - 1], last);
    }
  }

  /** Filtering twice is filtering once by either condition. */
  lemma {:induction false} WithoutTwice<T>(s: seq<T>, p: T -> bool, q: T -> bool, r: T -> bool)
    requires forall x :: r(x) == (p(x) || q(x))
    ensures Without(Without(s, p), q) == Without(s, r)
  {
    if s != [] {
      var init := s[..|s| - 1];
      WithoutTwice(init, p, q, r);
      var last := s[|s| - 1];
      var w := Without(init, p);
      if p(last) {
        assert Without(s, p) == w;
      } else {
        assert Without(s, p) == w + [last];
        assert (w + [last])[..|w|] == w;
      }
    }
  }

  /** Some member of `Without(s, p)` satisfies `q` exactly when some member of
      `s` satisfies `q` and not `p`. */
  lemma WithoutExists<T>(s: seq<T>, p: T -> bool, q: T -> bool)
    ensures (exists k :: 0 <= k < |Without(s, p)| && q(Without(s, p)[k]))
        ==> (exists j :: 0 <= j < |s| && q(s[j]) && !p(s[j]))
    ensures (exists j :: 0 <= j < |s| && q(s[j]) && !p(s[j]))
        ==> (exists k :: 0 <= k < |Without(s, p)| && q(Without(s, p)[k]))
  {
    var w := Without(s, p);
    if exists k :: 0 <= k < |w| && q(w[k]) {
      var k :| 0 <= k < |w| && q(w[k]);
      assert w[k] in w;
      WithoutMember(s, p, w[k]);
      var j :| 0 <= j < |s| && s[j] == w[k];
      assert q(s[j]) && !p(s[j]);
    }
    if exists j :: 0 <= j < |s| && q(s[j]) && !p(s[j]) {
      var j :| 0 <= j < |s| && q(s[j]) && !p(s[j]);
      assert s[j] in s;
      WithoutMember(s, p, s[j]);
      assert s[j] in w;
      var k :| 0 <= k < |w| && w[k] == s[j];
      assert q(w[k]);
    }
  }

  /** Filtering a sequence extended by one member. */
  lemma WithoutSnoc<T>(s: seq<T>, x: T, p: T -> bool)
    ensures Without(s + [x], p) == Without(s, p) + (if p(x) then [] else [x])
  {
    assert (s + [x])[..|s|] == s;
  }

  /** spritecollide(a, group, True): remove from the group every member
      that `a` overlaps (`hit`), and report whether there was any. */
  method SpriteCollide<B>(group: seq<B>, hit: B -> bool) returns (any: bool, rest: seq<B>)
    ensures any <==> exists k :: 0 <= k < |group| && hit(group[k])
    ensures rest == Without(group, hit)
  {
    rest := [];
    any := false;
    var j := 0;
    while j < |group|
      invariant 0 <= j <= |group|
      invariant rest == Without(group[..j], hit)
      invariant any <==> exists k :: 0 <= k < j && hit(group[k])
    {
      assert group[..j + 1] == group[..j] + [group[j]];
      WithoutSnoc(group[..j], group[j], hit);
      if hit(group[j]) {
        any := true;
      } else {
        rest := rest + [group[j]];
      }
      j := j + 1;
    }
    assert group[..j] == group;
  }

  /** One more member walked: the survivors lose what it overlaps, and it is
      reported exactly when it overlaps one of the survivors so far. */
  lemma CollideStep<A, B>(xs: seq<A>, ys: seq<B>, hit: (A, B) -> bool, i: int)
    requires 0 <= i < |xs|
    ensures Without(Untouched(xs[..i], ys, hit), b => hit(xs[i], b)) == Untouched(xs[..i + 1], ys, hit)
    ensures (exists k :: 0 <= k < |Untouched(xs[..i], ys, hit)| && hit(xs[i], Untouched(xs[..i], ys, hit)[k]))
        <==> CrashesAt(xs, ys, hit, i)
  {
    var a := xs[i];
    var p := b => Consumed(xs[..i], b, hit);
    WithoutExists(ys, p, b => hit(a, b));
    forall b ensures Consumed(xs[..i + 1], b, hit) == (p(b) || hit(a, b)) {
      ConsumedSnoc(xs, b, hit, i);
    }
    WithoutTwice(ys, p, b => hit(a, b), b => Consumed(xs[..i + 1], b, hit));
  }

  /** A member is consumed by one more walker exactly when it was consumed
      already or the new walker overlaps it. */
  lemma ConsumedSnoc<A, B>(xs: seq<A>, b: B, hit: (A, B) -> bool, i: int)
    requires 0 <= i < |xs|
    ensures Consumed(xs[..i + 1], b, hit) == (Consumed(xs[..i], b, hit) || hit(xs[i], b))
  {
    if Consumed(xs[..i + 1], b, hit) {
      var k :| 0 <= k < i + 1 && hit(xs[..i + 1][k], b);
      if k < i { assert xs[..i][k] == xs[..i + 1][k]; }
    }
    if Consumed(xs[..i], b, hit) {
      var k :| 0 <= k < i && hit(xs[..i][k], b);
      assert xs[..i + 1][k] == xs[..i][k];
    }
    assert xs[..i + 1][i] == xs[i];
  }

  /** groupcollide(xs, ys, dokilla, True), written as the walk pygame performs:
      spritecollide with removal for each member of `xs` in order. */
  method GroupCollide<A, B>(xs: seq<A>, ys: seq<B>, hit: (A, B) -> bool)
    returns (crashed: seq<bool>, rest: seq<B>)
    ensures |crashed| == |xs|
    ensures forall i :: 0 <= i < |xs| ==> (crashed[i] <==> CrashesAt(xs, ys, hit, i))
    ensures rest == Untouched(xs, ys, hit)
    ensures Count(crashed) + |rest| <= |ys|
  {
    crashed, rest := CollideWalk(xs, ys, hit);
    CrashBound(xs, ys, hit, crashed, |xs|);
    assert crashed[..|xs|] == crashed && xs[..|xs|] == xs;
  }

  /** The walk of `GroupCollide`. */
  method CollideWalk<A, B>(xs: seq<A>, ys: seq<B>, hit: (A, B) -> bool)
    returns (crashed: seq<bool>, rest: seq<B>)
    ensures |crashed| == |xs|
    ensures forall i :: 0 <= i < |xs| ==> (crashed[i] <==> CrashesAt(xs, ys, hit, i))
    ensures rest == Untouched(xs, ys, hit)
  {
    crashed := [];
    rest := ys;
    assert xs[..0] == [];
    WithoutNone(ys, b => Consumed(xs[..0], b, hit));
    var i := 0;
    while i < |xs|
      invariant 0 <= i <= |xs|
      invariant |crashed| == i
      invariant rest == Untouched(xs[..i], ys, hit)
      invariant forall k :: 0 <= k < i ==> (crashed[k] <==> CrashesAt(xs, ys, hit, k))
    {
      var any, next := SpriteCollide(rest, b => hit(xs[i], b));
      CollideStep(xs, ys, hit, i);
      assert any <==> CrashesAt(xs, ys, hit, i);
      assert next == Untouched(xs[..i + 1], ys, hit);
      crashed := crashed + [any];
      rest := next;
      i := i + 1;
    }
    assert xs[..i] == xs;
  }

  /** Filtering by a condition no member meets changes nothing. */
  lemma {:induction false} WithoutNone<T>(s: seq<T>, p: T -> bool)
    requires forall x :: x in s ==> !p(x)
    ensures Without(s, p) == s
  {
    if s != [] {
      var init := s[..|s| - 1];
      forall x | x in init ensures !p(x) {
        assert x in s;
      }
      WithoutNone(init, p);
    }
  }

  /** A filter that some member meets removes at least one member. */
  lemma {:induction false} WithoutShrinks<T>(s: seq<T>, p: T -> bool, k: int)
    requires 0 <= k < |s| && p(s[k])
    ensures |Without(s, p)| < |s|
  {
    var n := |s| - 1;
    if k < n {
      assert s[..n][k] == s[k];
      WithoutShrinks(s[..n], p, k);
    }
  }

  /** groupcollide destroys each member of `ys` at most once, so the members
      of `xs` it reports and the members of `ys` left over are together at
      most `|ys|`: every report costs a member of `ys`. */
  lemma {:induction false} CrashBound<A, B>(xs: seq<A>, ys: seq<B>, hit: (A, B) -> bool, crashed: seq<bool>, n: int)
    requires 0 <= n <= |xs| && |crashed| == |xs|
    requires forall i :: 0 <= i < |xs| ==> (crashed[i] <==> CrashesAt(xs, ys, hit, i))
    ensures Count(crashed[..n]) + |Untouched(xs[..n], ys, hit)| <= |ys|
  {
    if n > 0 {
      var m := n - 1;
      CrashBound(xs, ys, hit, crashed, m);
      assert crashed[..n][..m] == crashed[..m];
      CollideStep(xs, ys, hit, m);
      var u := Untouched(xs[..m], ys, hit);
      if crashed[m] {
        var k :| 0 <= k < |u| && hit(xs[m], u[k]);
        WithoutShrinks(u, b => hit(xs[m], b), k);
      }
    }
  }

  /** Two groups without a common member join into one. */
  lemma DistinctConcat<T>(a: seq<T>, b: seq<T>)
    requires Distinct(a) && Distinct(b)
    requires forall i, j :: 0 <= i < |a| && 0 <= j < |b| ==> a[i] != b[j]
    ensures Distinct(a + b)
  {
    forall i, j | 0 <= i < j < |a + b| ensures (a + b)[i] != (a + b)[j] {
      if j < |a| {
      } else if i >= |a| {
        assert (a + b)[i] == b[i - |a|] && (a + b)[j] == b[j - |a|];
      } else {
        assert (a + b)[j] == b[j - |a|];
      }
    }
  }
}
