/** The bouncing sphere of the particle demo: a position, velocity and acceleration
    3-vector (arrays the object updates component by component), a radius and a
    timestep. One update advances the position, reflects and damps the velocity on
    every axis whose wall the sphere crosses, pushes the sphere back inside the box
    [-40,40] x [-40,40] x [-49,50] with a margin of 0.01, then updates the velocity
    (with or without drag) and sets the y acceleration to gravity. */
module Sphere {

  datatype Option<T> = None | Some(value: T)

  /** A 3-vector. */
  type Vec3 = s: seq<real> | |s| == 3 witness [0.0, 0.0, 0.0]

  /** Walls of the box (x and y share theirs), the damping factors and the margin
      position_correction leaves between the sphere and a wall. */
  const XYUpper: real := 40.0
  const XYLower: real := -40.0
  const ZUpper: real := 50.0
  const ZLower: real := -49.0
  const EnergyLoss: real := 0.98
  const GravityLoss: real := 0.78
  const AddFactor: real := 0.01

  function Abs(r: real): real
  {
    if r < 0.0 then -r else r
  }

  // ----- check_bounds, per axis -----

  /** The sphere of radius rad at p sticks out of [lo, hi]. */
  predicate Crosses(p: real, rad: real, lo: real, hi: real)
  {
    p + rad > hi || p - rad < lo
  }

  /** The x and z rule of check_bounds: reversed and damped by 0.98 on contact. */
  function BounceAxis(v: real, p: real, rad: real, lo: real, hi: real): real
  {
    if Crosses(p, rad, lo, hi) then -(v * EnergyLoss) else v
  }

  /** check_bounds' `g > 0.0` test; a missing g (update_sphere passes none) is not
      greater than 0. */
  predicate GravityOn(g: Option<real>)
  {
    g.Some? && g.value > 0.0
  }

  /** The y rule of check_bounds: on contact 0.78 when the lower wall is hit with
      gravity on, 0.98 otherwise. */
  function BounceY(v: real, p: real, rad: real, g: Option<real>): real
  {
    if Crosses(p, rad, XYLower, XYUpper) then
      if p - rad < XYLower && GravityOn(g) then -(v * GravityLoss) else -(v * EnergyLoss)
    else v
  }

  /** The velocity check_bounds leaves, for the sphere at p moving with v. */
  function Bounced(p: Vec3, v: Vec3, rad: real, g: Option<real>): Vec3
  {
    [BounceAxis(v[0], p[0], rad, XYLower, XYUpper),
     BounceY(v[1], p[1], rad, g),
     BounceAxis(v[2], p[2], rad, ZLower, ZUpper)]
  }

  // ----- position_correction, per axis -----

  /** x and z: first pulled below the upper wall, then above the lower one. */
  function ClampUpperFirst(p: real, rad: real, lo: real, hi: real): real
  {
    var p1 := if p + rad > hi then hi - rad - AddFactor else p;
    if p1 - rad < lo then lo + rad + AddFactor else p1
  }

  /** y: first pushed above the lower wall, then below the upper one. */
  function ClampLowerFirst(p: real, rad: real, lo: real, hi: real): real
  {
    var p1 := if p - rad < lo then lo + rad + AddFactor else p;
    if p1 + rad > hi then hi - rad - AddFactor else p1
  }

  /** The position position_correction leaves. */
  function Corrected(p: Vec3, rad: real): Vec3
  {
    [ClampUpperFirst(p[0], rad, XYLower, XYUpper),
     ClampLowerFirst(p[1], rad, XYLower, XYUpper),
     ClampUpperFirst(p[2], rad, ZLower, ZUpper)]
  }

  /** The sphere lies within [lo, hi] on one axis. */
  predicate Inside(p: real, rad: real, lo: real, hi: real)
  {
    lo <= p - rad && p + rad <= hi
  }

  /** The sphere lies within the box on every axis. */
  predicate InBox(p: Vec3, rad: real)
  {
    Inside(p[0], rad, XYLower, XYUpper) && Inside(p[1], rad, XYLower, XYUpper) && Inside(p[2], rad, ZLower, ZUpper)
  }

  /** The sphere, with the margin, fits between the walls of every axis: the
      condition under which position_correction can place it. */
  predicate Fits(rad: real)
  {
    2.0 * rad + AddFactor <= XYUpper - XYLower && 2.0 * rad + AddFactor <= ZUpper - ZLower
  }

  // ----- update_position, update_velocity, update_acceleration -----

  /** position[k] += t * velocity[k] for each axis. */
  function Advance(p: Vec3, v: Vec3, t: real): Vec3
  {
    [p[0] + t * v[0], p[1] + t * v[1], p[2] + t * v[2]]
  }

  /** update_velocity(t, d): with drag (d > 0) v[k] := t*a[k] + v[k]*d, otherwise
      v[k] := v[k] + t*a[k]. */
  function NextVelocity(v: Vec3, a: Vec3, t: real, d: real): Vec3
  {
    if d > 0.0 then [t * a[0] + v[0] * d, t * a[1] + v[1] * d, t * a[2] + v[2] * d]
    else [v[0] + t * a[0], v[1] + t * a[1], v[2] + t * a[2]]
  }

  /** The three vectors the sphere updates. */
  datatype Motion = Motion(position: Vec3, velocity: Vec3, acceleration: Vec3)

  /** The timestep update_sphere uses: real_time when t is true, the stored one otherwise. */
  function StepTime(stored: real, t: bool, realTime: real): real
  {
    if t then realTime else stored
  }

  /** One update_sphere(g, f, ..) with timestep `time`: update_position without g
      (advance, check_bounds, position_correction), then update_velocity(time, f),
      then update_acceleration(g). */
  function Step(m: Motion, rad: real, time: real, g: real, f: real): Motion
  {
    var p1 := Advance(m.position, m.velocity, time);
    var v1 := Bounced(p1, m.velocity, rad, None);
    Motion(Corrected(p1, rad), NextVelocity(v1, m.acceleration, time, f), m.acceleration[1 := g])
  }

  // ----- properties -----

  /** Correcting one axis, upper wall first, lands inside [lo, hi] whenever the sphere
      and the margin fit, and leaves the position alone exactly when it was inside. */
  lemma ClampUpperFirstInside(p: real, rad: real, lo: real, hi: real)
    requires 2.0 * rad + AddFactor <= hi - lo
    ensures Inside(ClampUpperFirst(p, rad, lo, hi), rad, lo, hi)
    ensures ClampUpperFirst(p, rad, lo, hi) == p <==> Inside(p, rad, lo, hi)
  {
  }

  /** The same for the lower wall first. */
  lemma ClampLowerFirstInside(p: real, rad: real, lo: real, hi: real)
    requires 2.0 * rad + AddFactor <= hi - lo
    ensures Inside(ClampLowerFirst(p, rad, lo, hi), rad, lo, hi)
    ensures ClampLowerFirst(p, rad, lo, hi) == p <==> Inside(p, rad, lo, hi)
  {
  }

  /** position_correction puts a sphere that fits inside the box, and changes the
      position exactly when the sphere was not already inside. */
  lemma CorrectedInBox(p: Vec3, rad: real)
    requires Fits(rad)
    ensures InBox(Corrected(p, rad), rad)
    ensures Corrected(p, rad) == p <==> InBox(p, rad)
  {
    ClampUpperFirstInside(p[0], rad, XYLower, XYUpper);
    ClampLowerFirstInside(p[1], rad, XYLower, XYUpper);
    ClampUpperFirstInside(p[2], rad, ZLower, ZUpper);
    if InBox(p, rad) {
      assert Corrected(p, rad) == [p[0], p[1], p[2]] == p;
    }
  }

  /** Correcting twice is correcting once. */
  lemma CorrectedIdempotent(p: Vec3, rad: real)
    requires Fits(rad)
    ensures Corrected(Corrected(p, rad), rad) == Corrected(p, rad)
  {
    CorrectedInBox(p, rad);
    CorrectedInBox(Corrected(p, rad), rad);
  }

  /** A sphere too big for the box is not placed inside it: without Fits the
      correction on x leaves it sticking out of the lower wall. */
  lemma CorrectionNeedsFit()
    ensures !Fits(45.0) && !InBox(Corrected([0.0, 0.0, 0.0], 45.0), 45.0)
  {
    assert ClampUpperFirst(0.0, 45.0, XYLower, XYUpper) == 5.01;
  }

  /** check_bounds never speeds the sphere up along any axis; an axis that does not
      touch a wall keeps its velocity, one that does is reversed. */
  lemma BouncedDamps(p: Vec3, v: Vec3, rad: real, g: Option<real>)
    ensures forall k :: 0 <= k < 3 ==> Abs(Bounced(p, v, rad, g)[k]) <= Abs(v[k])
    ensures v[0] != 0.0 ==> (Crosses(p[0], rad, XYLower, XYUpper) <==> Bounced(p, v, rad, g)[0] != v[0])
    ensures v[1] != 0.0 ==> (Crosses(p[1], rad, XYLower, XYUpper) <==> Bounced(p, v, rad, g)[1] != v[1])
    ensures v[2] != 0.0 ==> (Crosses(p[2], rad, ZLower, ZUpper) <==> Bounced(p, v, rad, g)[2] != v[2])
  {
    var b := Bounced(p, v, rad, g);
    assert Abs(b[0]) <= Abs(v[0]);
    assert Abs(b[1]) <= Abs(v[1]);
    assert Abs(b[2]) <= Abs(v[2]);
  }

  /** Without g the y rule is the plain 0.98 rule: the 0.78 branch needs g > 0. */
  lemma NoGravityBounceY(v: real, p: real, rad: real)
    ensures BounceY(v, p, rad, None) == BounceAxis(v, p, rad, XYLower, XYUpper)
  {
  }

  /** With g > 0 a sphere below the lower y wall loses more: the 0.78 branch is live
      when update_position is called directly with g. */
  lemma GravityBounceY()
    ensures BounceY(-5.0, -40.0, 1.0, Some(9.8)) == 3.9
    ensures BounceY(-5.0, -40.0, 1.0, None) == 4.9
  {
  }

  /** After any update_sphere a sphere that fits is inside the box, and the y
      acceleration is the new gravity. */
  lemma StepInBox(m: Motion, rad: real, time: real, g: real, f: real)
    requires Fits(rad)
    ensures InBox(Step(m, rad, time, g, f).position, rad)
    ensures Step(m, rad, time, g, f).acceleration == [m.acceleration[0], g, m.acceleration[2]]
  {
    CorrectedInBox(Advance(m.position, m.velocity, time), rad);
  }

  /** update_sphere bounces every axis, y included, by the 0.98 rule: the 0.78 damping
      of the lower y wall is never used on this path, whatever g is. */
  lemma StepBouncesWithoutGravity(m: Motion, rad: real, time: real, g: real, f: real)
    ensures var p1 := Advance(m.position, m.velocity, time);
      Step(m, rad, time, g, f).velocity
        == NextVelocity([BounceAxis(m.velocity[0], p1[0], rad, XYLower, XYUpper),
                         BounceAxis(m.velocity[1], p1[1], rad, XYLower, XYUpper),
                         BounceAxis(m.velocity[2], p1[2], rad, ZLower, ZUpper)], m.acceleration, time, f)
  {
    var p1 := Advance(m.position, m.velocity, time);
    NoGravityBounceY(m.velocity[1], p1[1], rad);
  }

  /** Position (0,0,0), velocity (0,-5,0), zero acceleration, radius 1, timestep 1,
      g = 0, no drag: the sphere moves to (0,-5,0) and keeps its velocity. */
  lemma StepExample()
    ensures var m := Step(Motion([0.0, 0.0, 0.0], [0.0, -5.0, 0.0], [0.0, 0.0, 0.0]), 1.0, 1.0, 0.0, 0.0);
      m.position == [0.0, -5.0, 0.0] && m.velocity == [0.0, -5.0, 0.0] && m.acceleration == [0.0, 0.0, 0.0]
  {
    var m0 := Motion([0.0, 0.0, 0.0], [0.0, -5.0, 0.0], [0.0, 0.0, 0.0]);
    var p1 := Advance(m0.position, m0.velocity, 1.0);
    assert p1 == [0.0, -5.0, 0.0];
    assert Bounced(p1, m0.velocity, 1.0, None) == [0.0, -5.0, 0.0];
    assert Corrected(p1, 1.0) == [0.0, -5.0, 0.0];
  }

  /** The sphere object: its vectors are arrays updated component by component. */
  class SphereMesh {
    var velocity: array<real>
    var position: array<real>
    var acceleration: array<real>
    var color: array<real>
    var rad: real
    var time: real

    /** Three-entry vectors, held in distinct arrays. */
    ghost predicate Valid()
      reads this
    {
      && position.Length == 3 && velocity.Length == 3 && acceleration.Length == 3
      && position != velocity && position != acceleration && velocity != acceleration
    }

    /** The vectors as values. */
    ghost function State(): Motion
      reads this, position, velocity, acceleration
      requires Valid()
    {
      Motion(position[..], velocity[..], acceleration[..])
    }

    /** new sphereMesh(v, p, a, c, r, t): keeps the given arrays (not copies). */
    constructor(v: array<real>, p: array<real>, a: array<real>, c: array<real>, r: real, t: real)
      requires v.Length == 3 && p.Length == 3 && a.Length == 3
      requires p != v && p != a && v != a
      ensures Valid()
      ensures velocity == v && position == p && acceleration == a && color == c && rad == r && time == t
    {
      velocity := v;
      position := p;
      acceleration := a;
      color := c;
      rad := r;
      time := t;
    }

    /** update_position(t, g): advance by t*velocity, then check_bounds(g) on the new
        position, then position_correction. */
    method UpdatePosition(t: real, g: Option<real>)
      requires Valid()
      modifies position, velocity
      ensures position[..] == Corrected(Advance(old(position[..]), old(velocity[..]), t), rad)
      ensures velocity[..] == Bounced(Advance(old(position[..]), old(velocity[..]), t), old(velocity[..]), rad, g)
      ensures Fits(rad) ==> InBox(position[..], rad)
    {
      ghost var p0: Vec3, v0: Vec3 := position[..], velocity[..];
      ghost var p1 := Advance(p0, v0, t);
      position[0] := position[0] + t * velocity[0];
      assert position[0] == p1[0];
      position[1] := position[1] + t * velocity[1];
      assert position[1] == p1[1];
      position[2] := position[2] + t * velocity[2];
      assert position[..] == [position[0], position[1], position[2]];
      assert position[0] == p1[0] && position[1] == p1[1] && position[2] == p1[2];
      assert position[..] == p1;
      CheckBounds(g);
      PositionCorrection();
      assert position[..] == Corrected(Advance(p0, v0, t), rad);
    }

    /** check_bounds(g): only the velocity changes, axis by axis. */
    method CheckBounds(g: Option<real>)
      requires Valid()
      modifies velocity
      ensures velocity[..] == Bounced(position[..], old(velocity[..]), rad, g)
    {
      ghost var b := Bounced(position[..], velocity[..], rad, g);
      if position[0] + rad > XYUpper || position[0] - rad < XYLower {
        velocity[0] := -(velocity[0] * EnergyLoss);
      }
      assert velocity[0] == b[0];
      if position[1] + rad > XYUpper || position[1] - rad < XYLower {
        if position[1] - rad < XYLower && GravityOn(g) {
          velocity[1] := -(velocity[1] * GravityLoss);
        } else {
          velocity[1] := -(velocity[1] * EnergyLoss);
        }
      }
      assert velocity[1] == b[1];
      if position[2] + rad > ZUpper || position[2] - rad < ZLower {
        velocity[2] := -(velocity[2] * EnergyLoss);
      }
      assert velocity[..] == [velocity[0], velocity[1], velocity[2]];
      assert velocity[0] == b[0] && velocity[1] == b[1] && velocity[2] == b[2];
    }

    /** position_correction: only the position changes; y lower wall first, then
        upper; x and z upper wall first, then lower. */
    method PositionCorrection()
      requires Valid()
      modifies position
      ensures position[..] == Corrected(old(position[..]), rad)
      ensures Fits(rad) ==> InBox(position[..], rad)
      ensures InBox(old(position[..]), rad) && Fits(rad) ==> position[..] == old(position[..])
    {
      ghost var c := Corrected(position[..], rad);
      CorrectLowerFirst(1, XYLower, XYUpper);
      CorrectUpperFirst(0, XYLower, XYUpper);
      CorrectUpperFirst(2, ZLower, ZUpper);
      assert position[..] == [c[0], c[1], c[2]];
      if Fits(rad) {
        CorrectedInBox(old(position[..]), rad);
      }
    }

    /** One axis of position_correction, lower wall first (the y axis). */
    method CorrectLowerFirst(k: int, lo: real, hi: real)
      requires Valid() && 0 <= k < 3
      modifies position
      ensures position[..] == old(position[..])[k := ClampLowerFirst(old(position[k]), rad, lo, hi)]
    {
      if position[k] - rad < lo {
        position[k] := lo + rad + AddFactor;
      }
      if position[k] + rad > hi {
        position[k] := hi - rad - AddFactor;
      }
    }

    /** One axis of position_correction, upper wall first (the x and z axes). */
    method CorrectUpperFirst(k: int, lo: real, hi: real)
      requires Valid() && 0 <= k < 3
      modifies position
      ensures position[..] == old(position[..])[k := ClampUpperFirst(old(position[k]), rad, lo, hi)]
    {
      if position[k] + rad > hi {
        position[k] := hi - rad - AddFactor;
      }
      if position[k] - rad < lo {
        position[k] := lo + rad + AddFactor;
      }
    }

    /** update_velocity(t, d): only the velocity changes. */
    method UpdateVelocity(t: real, d: real)
      requires Valid()
      modifies velocity
      ensures velocity[..] == NextVelocity(old(velocity[..]), acceleration[..], t, d)
    {
      ghost var v1 := NextVelocity(velocity[..], acceleration[..], t, d);
      if d > 0.0 {
        velocity[0] := t * acceleration[0] + velocity[0] * d;
        assert velocity[0] == v1[0];
        velocity[1] := t * acceleration[1] + velocity[1] * d;
        assert velocity[1] == v1[1];
        velocity[2] := t * acceleration[2] + velocity[2] * d;
      } else {
        velocity[0] := velocity[0] + t * acceleration[0];
        assert velocity[0] == v1[0];
        velocity[1] := velocity[1] + t * acceleration[1];
        assert velocity[1] == v1[1];
        velocity[2] := velocity[2] + t * acceleration[2];
      }
      assert velocity[..] == [velocity[0], velocity[1], velocity[2]];
      assert velocity[0] == v1[0] && velocity[1] == v1[1] && velocity[2] == v1[2];
    }

    /** update_acceleration(gravity): only acceleration[1] changes. */
    method UpdateAcceleration(gravity: real)
      requires Valid()
      modifies acceleration
      ensures acceleration[..] == old(acceleration[..])[1 := gravity]
    {
      acceleration[1] := gravity;
    }

    /** update_sphere(g, f, t, real_time): update_position(time) with no g, then
        update_velocity(time, f), then update_acceleration(g). */
    method UpdateSphere(g: real, f: real, t: bool, realTime: real)
      requires Valid()
      modifies position, velocity, acceleration
      ensures State() == Step(old(State()), rad, StepTime(time, t, realTime), g, f)
      ensures Fits(rad) ==> InBox(position[..], rad)
    {
      var time := this.time;
      if t == true {
        time := realTime;
      }
      UpdatePosition(time, None);
      UpdateVelocity(time, f);
      UpdateAcceleration(g);
    }

    /** get_radius. */
    method GetRadius() returns (r: real)
      ensures r == rad
    {
      return rad;
    }

    /** get_position: the position array itself, not a copy. */
    method GetPosition() returns (p: array<real>)
      ensures p == position
    {
      return position;
    }
  }
}
