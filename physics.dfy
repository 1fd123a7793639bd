/** Kinematics of one dot: the three integrator passes of `update` and the pairwise
    elastic response of `resolveCollision` (js/game.js), over exact real arithmetic. */
module Physics {

  datatype Vec = Vec(x: real, y: real)

  /** The record pushed onto `dots`; `ax`, `ay` are carried but never read. */
  datatype Dot = Dot(
    x: real, y: real,
    vx: real, vy: real,
    ax: real, ay: real,
    friction: real,
    sizeScale: real,
    mass: real)

  function Cube(s: real): real {
    s * s * s
  }

  /** The fields no integration or collision step writes. */
  predicate SameBody(a: Dot, b: Dot) {
    a.ax == b.ax && a.ay == b.ay && a.friction == b.friction
    && a.sizeScale == b.sizeScale && a.mass == b.mass
  }

  /** `Math.sqrt` on non-negative arguments: the model is handed the square root as a
      function and relies only on its defining property. */
  ghost predicate IsSqrt(sqrt: real -> real) {
    forall s :: 0.0 <= s ==> 0.0 <= sqrt(s) && sqrt(s) * sqrt(s) == s
  }

  // ---------------------------------------------------------------------------
  // Integration (js/game.js:315-337)

  /** First pass: the field force scaled by strength and the time step, added to velocity. */
  function FieldKick(d: Dot, force: Vec, strength: real, dt: real): Dot {
    d.(vx := d.vx + force.x * strength * dt, vy := d.vy + force.y * strength * dt)
  }

  /** Second pass: the constant force times the time step, added to velocity. */
  function ConstantKick(d: Dot, c: Vec, dt: real): Dot {
    d.(vx := d.vx + c.x * dt, vy := d.vy + c.y * dt)
  }

  /** Third pass: move by the velocity, then damp it by (1 - friction * dt). */
  function Advance(d: Dot, dt: real): Dot {
    d.(x := d.x + d.vx * dt, y := d.y + d.vy * dt,
       vx := d.vx * (1.0 - d.friction * dt), vy := d.vy * (1.0 - d.friction * dt))
  }

  /** One dot's whole frame, the three passes in source order. */
  function Step(d: Dot, force: Vec, strength: real, c: Vec, dt: real): Dot {
    Advance(ConstantKick(FieldKick(d, force, strength, dt), c, dt), dt)
  }

  /** The frame in closed form: v1 = v + f * strength * dt + c * dt, x' = x + v1 * dt,
      v' = v1 * (1 - friction * dt); nothing else about the dot changes. */
  lemma StepClosedForm(d: Dot, f: Vec, strength: real, c: Vec, dt: real)
    ensures var v1x, v1y := d.vx + f.x * strength * dt + c.x * dt, d.vy + f.y * strength * dt + c.y * dt;
            var e := Step(d, f, strength, c, dt);
            && e.x == d.x + v1x * dt && e.y == d.y + v1y * dt
            && e.vx == v1x * (1.0 - d.friction * dt) && e.vy == v1y * (1.0 - d.friction * dt)
            && SameBody(d, e)
  {
  }

  /** The default drift: with no field, no friction and a dot at rest, a constant force
      of (-200, 0) over one second moves the dot exactly 200 units left. */
  lemma DriftScenario(d: Dot, f: Vec)
    requires d.vx == 0.0 && d.vy == 0.0 && d.friction == 0.0
    ensures Step(d, f, 0.0, Vec(-200.0, 0.0), 1.0).x == d.x - 200.0
    ensures Step(d, f, 0.0, Vec(-200.0, 0.0), 1.0).y == d.y
  {
  }

  /** Without forces or friction a dot moves in a straight line at constant velocity. */
  lemma FreeFlight(d: Dot, f: Vec, dt: real)
    requires d.friction == 0.0
    ensures var e := Step(d, f, 0.0, Vec(0.0, 0.0), dt);
            e.x == d.x + d.vx * dt && e.y == d.y + d.vy * dt && e.vx == d.vx && e.vy == d.vy
  {
  }

  function SpeedSquared(d: Dot): real {
    d.vx * d.vx + d.vy * d.vy
  }

  /** First-order friction slows a moving dot while 0 < friction * dt <= 1, and the
      velocity keeps its direction. */
  lemma FrictionSlows(d: Dot, f: Vec, dt: real)
    requires 0.0 < d.friction * dt <= 1.0
    requires SpeedSquared(d) > 0.0
    ensures var e := Step(d, f, 0.0, Vec(0.0, 0.0), dt);
            SpeedSquared(e) < SpeedSquared(d)
            && 0.0 <= e.vx * d.vx && 0.0 <= e.vy * d.vy
  {
    var k := 1.0 - d.friction * dt;
    var e := Step(d, f, 0.0, Vec(0.0, 0.0), dt);
    assert e.vx == d.vx * k && e.vy == d.vy * k;
    assert SpeedSquared(e) == k * k * SpeedSquared(d);
    assert 0.0 <= k < 1.0;
    assert k * k <= k * 1.0;
    assert e.vx * d.vx == k * (d.vx * d.vx);
    assert e.vy * d.vy == k * (d.vy * d.vy);
  }

  /** ... but once friction * dt exceeds 2 the update overshoots: the velocity flips
      against its old direction on each axis and the dot speeds up. */
  lemma FrictionOvershoots(d: Dot, f: Vec, dt: real)
    requires d.friction * dt > 2.0
    requires SpeedSquared(d) > 0.0
    ensures var e := Step(d, f, 0.0, Vec(0.0, 0.0), dt);
            SpeedSquared(e) > SpeedSquared(d)
            && e.vx * d.vx <= 0.0 && e.vy * d.vy <= 0.0
            && (e.vx * d.vx < 0.0 || e.vy * d.vy < 0.0)
  {
    var k := 1.0 - d.friction * dt;
    var e := Step(d, f, 0.0, Vec(0.0, 0.0), dt);
    assert e.vx == d.vx * k && e.vy == d.vy * k;
    assert SpeedSquared(e) == k * k * SpeedSquared(d);
    assert k < -1.0;
    assert k * k > 1.0;
    assert e.vx * d.vx == k * (d.vx * d.vx);
    assert e.vy * d.vy == k * (d.vy * d.vy);
    assert d.vx * d.vx > 0.0 || d.vy * d.vy > 0.0;
  }

  // ---------------------------------------------------------------------------
  // Collision response (js/game.js:567-606)

  /** Relative velocity dotted with the centre-to-centre vector (not normalised); it has
      the sign of the normal speed `speed` the source compares with 0. */
  function Closing(d1: Dot, d2: Dot): real {
    (d2.vx - d1.vx) * (d2.x - d1.x) + (d2.vy - d1.vy) * (d2.y - d1.y)
  }

  function MomentumX(d: Dot): real { d.mass * d.vx }
  function MomentumY(d: Dot): real { d.mass * d.vy }
  function PositionX(d: Dot): real { d.x }
  function PositionY(d: Dot): real { d.y }

  function Energy(d: Dot): real { d.mass * SpeedSquared(d) }

  /** `resolveCollision(dot1, dot2)` given the centre distance the source computes with
      Math.sqrt.  When the normal speed is positive nothing changes (js/game.js:589);
      otherwise a mass-weighted impulse along the normal and a symmetric push along it
      by half the overlap.  The pair keeps its momentum and its position sum. */
  function Collide(d1: Dot, d2: Dot, distance: real, dotRadius: real): (r: (Dot, Dot))
    requires distance > 0.0
    requires d1.mass + d2.mass != 0.0
    ensures MomentumX(r.0) + MomentumX(r.1) == MomentumX(d1) + MomentumX(d2)
    ensures MomentumY(r.0) + MomentumY(r.1) == MomentumY(d1) + MomentumY(d2)
    ensures r.0.x + r.1.x == d1.x + d2.x && r.0.y + r.1.y == d1.y + d2.y
    ensures SameBody(d1, r.0) && SameBody(d2, r.1)
    ensures Closing(d1, d2) > 0.0 ==> r == (d1, d2)
  {
    var speed := NormalSpeed(d1, d2, distance);
    SpeedSign(d1, d2, distance);
    if speed > 0.0 then (d1, d2)
    else
      Respond(d1, d2, (d2.x - d1.x) / distance, (d2.y - d1.y) / distance,
              (-2.0 * speed) / (d1.mass + d2.mass),
              (dotRadius * d1.sizeScale + dotRadius * d2.sizeScale - distance) / 2.0)
  }

  /** The approaching branch of `resolveCollision` (js/game.js:592-605) for the normal
      (nx, ny), impulse a and correction c: each velocity changes by the impulse times
      the other dot's mass along the normal, then each centre moves by c along the
      normal, away from the other. */
  function Respond(d1: Dot, d2: Dot, nx: real, ny: real, a: real, c: real): (r: (Dot, Dot))
    ensures MomentumX(r.0) + MomentumX(r.1) == MomentumX(d1) + MomentumX(d2)
    ensures MomentumY(r.0) + MomentumY(r.1) == MomentumY(d1) + MomentumY(d2)
    ensures r.0.x + r.1.x == d1.x + d2.x && r.0.y + r.1.y == d1.y + d2.y
    ensures SameBody(d1, r.0) && SameBody(d2, r.1)
  {
    var e1 := d1.(vx := d1.vx - a * nx * d2.mass, vy := d1.vy - a * ny * d2.mass,
                  x := d1.x - nx * c, y := d1.y - ny * c);
    var e2 := d2.(vx := d2.vx + a * nx * d1.mass, vy := d2.vy + a * ny * d1.mass,
                  x := d2.x + nx * c, y := d2.y + ny * c);
    assert d1.mass * (a * nx * d2.mass) == d2.mass * (a * nx * d1.mass);
    assert d1.mass * (a * ny * d2.mass) == d2.mass * (a * ny * d1.mass);
    (e1, e2)
  }

  /** `speed`: relative velocity projected on the unit normal. */
  function NormalSpeed(d1: Dot, d2: Dot, distance: real): real
    requires distance > 0.0
  {
    (d2.vx - d1.vx) * ((d2.x - d1.x) / distance) + (d2.vy - d1.vy) * ((d2.y - d1.y) / distance)
  }

  // ---------------------------------------------------------------------------
  // Real-arithmetic steps the solver does not find on its own

  lemma Cancel(x: real, y: real, e: real)
    requires e != 0.0 && x * e == y * e
    ensures x == y
  {
    assert (x - y) * e == 0.0;
  }

  lemma CancelSquare(s: real, d: real)
    requires d != 0.0 && s * (d * d) == d * d
    ensures s == 1.0
  {
    assert (s * d) * d == d * d;
    Cancel(s * d, d, d);
    Cancel(s, 1.0, d);
  }

  /** A unit vector scaled by k has squared length k * k. */
  lemma ScaledUnit(nx: real, ny: real, k: real, ux: real, uy: real)
    requires nx * nx + ny * ny == 1.0
    requires ux == nx * k && uy == ny * k
    ensures ux * ux + uy * uy == k * k
  {
    calc {
      ux * ux + uy * uy;
      (nx * k) * (nx * k) + (ny * k) * (ny * k);
      (nx * nx + ny * ny) * (k * k);
    }
  }

  /** |v - k n|^2 for a unit vector n. */
  lemma KickedSquare(vx: real, vy: real, nx: real, ny: real, k: real, wx: real, wy: real)
    requires nx * nx + ny * ny == 1.0
    requires wx == vx - k * nx && wy == vy - k * ny
    ensures wx * wx + wy * wy == vx * vx + vy * vy - 2.0 * k * (vx * nx + vy * ny) + k * k
  {
    calc {
      wx * wx + wy * wy;
      (vx - k * nx) * (vx - k * nx) + (vy - k * ny) * (vy - k * ny);
      vx * vx + vy * vy - 2.0 * k * (vx * nx + vy * ny) + (k * k) * (nx * nx + ny * ny);
      vx * vx + vy * vy - 2.0 * k * (vx * nx + vy * ny) + (k * k) * 1.0;
    }
  }

  lemma EnergyBalance(m1: real, m2: real, e1: real, e2: real, f1: real, f2: real,
                      p1: real, p2: real, a: real)
    requires f1 == e1 - 2.0 * (a * m2) * p1 + (a * m2) * (a * m2)
    requires f2 == e2 + 2.0 * (a * m1) * p2 + (a * m1) * (a * m1)
    requires a * (m1 + m2) == -2.0 * (p2 - p1)
    ensures m1 * f1 + m2 * f2 == m1 * e1 + m2 * e2
  {
    var g := a * m1 * m2;
    calc {
      m1 * f1 + m2 * f2;
      m1 * e1 + m2 * e2 + 2.0 * g * (p2 - p1) + g * (a * (m1 + m2));
      m1 * e1 + m2 * e2 + 2.0 * g * (p2 - p1) + g * (-2.0 * (p2 - p1));
    }
  }

  // ---------------------------------------------------------------------------
  // The impulse on bare numbers: velocities v1, v2, unit normal n, masses m1, m2 and the
  // impulse a that solves a * (m1 + m2) == -2 * ((v2 - v1) . n).

  /** The impulse keeps the mass-weighted sum of squared speeds. */
  lemma ImpulseKeepsEnergy(v1x: real, v1y: real, v2x: real, v2y: real, nx: real, ny: real,
                           m1: real, m2: real, a: real,
                           w1x: real, w1y: real, w2x: real, w2y: real)
    requires nx * nx + ny * ny == 1.0
    requires a * (m1 + m2) == -2.0 * ((v2x - v1x) * nx + (v2y - v1y) * ny)
    requires w1x == v1x - a * nx * m2 && w1y == v1y - a * ny * m2
    requires w2x == v2x + a * nx * m1 && w2y == v2y + a * ny * m1
    ensures m1 * (w1x * w1x + w1y * w1y) + m2 * (w2x * w2x + w2y * w2y)
            == m1 * (v1x * v1x + v1y * v1y) + m2 * (v2x * v2x + v2y * v2y)
  {
    KickedSquare(v1x, v1y, nx, ny, a * m2, w1x, w1y);
    KickedSquare(v2x, v2y, nx, ny, -(a * m1), w2x, w2y);
    var p1, p2 := v1x * nx + v1y * ny, v2x * nx + v2y * ny;
    assert (v2x - v1x) * nx + (v2y - v1y) * ny == p2 - p1;
    EnergyBalance(m1, m2, v1x * v1x + v1y * v1y, v2x * v2x + v2y * v2y,
                  w1x * w1x + w1y * w1y, w2x * w2x + w2y * w2y, p1, p2, a);
  }

  /** A kick along n leaves the component along the perpendicular (-ny, nx) alone. */
  lemma ImpulseKeepsTangent(vx: real, vy: real, nx: real, ny: real, k: real, wx: real, wy: real)
    requires wx == vx + k * nx && wy == vy + k * ny
    ensures wx * -ny + wy * nx == vx * -ny + vy * nx
  {
    assert wx * -ny + wy * nx == vx * -ny + vy * nx + k * (nx * -ny + ny * nx);
  }

  /** With equal masses the two normal components are exchanged. */
  lemma EqualMassSwap(v1x: real, v1y: real, v2x: real, v2y: real, nx: real, ny: real,
                      m: real, a: real, w1x: real, w1y: real, w2x: real, w2y: real)
    requires nx * nx + ny * ny == 1.0
    requires a * (m + m) == -2.0 * ((v2x - v1x) * nx + (v2y - v1y) * ny)
    requires w1x == v1x - a * nx * m && w1y == v1y - a * ny * m
    requires w2x == v2x + a * nx * m && w2y == v2y + a * ny * m
    ensures w1x * nx + w1y * ny == v2x * nx + v2y * ny
    ensures w2x * nx + w2y * ny == v1x * nx + v1y * ny
  {
    var k := a * m;
    var p1, p2 := v1x * nx + v1y * ny, v2x * nx + v2y * ny;
    assert k == p1 - p2;
    assert w1x * nx + w1y * ny == p1 - k * (nx * nx + ny * ny);
    assert w2x * nx + w2y * ny == p2 + k * (nx * nx + ny * ny);
  }

  // ---------------------------------------------------------------------------
  // The collision response on dots

  /** The normal (dx, dy) / distance is a unit vector when distance is the length of
      (dx, dy). */
  lemma UnitNormal(dx: real, dy: real, distance: real)
    requires distance > 0.0 && distance * distance == dx * dx + dy * dy
    ensures (dx / distance) * distance == dx && (dy / distance) * distance == dy
    ensures (dx / distance) * (dx / distance) + (dy / distance) * (dy / distance) == 1.0
  {
    var nx, ny := dx / distance, dy / distance;
    assert nx * distance == dx && ny * distance == dy;
    var p, q, e := nx * nx, ny * ny, distance * distance;
    assert dx * dx == p * e;
    assert dy * dy == q * e;
    assert (p + q) * e == p * e + q * e;
    calc {
      (nx * nx + ny * ny) * (distance * distance);
      (p + q) * e;
      p * e + q * e;
      dx * dx + dy * dy;
      distance * distance;
    }
    CancelSquare(nx * nx + ny * ny, distance);
  }

  /** The normal speed has the sign of Closing. */
  lemma SpeedSign(d1: Dot, d2: Dot, distance: real)
    requires distance > 0.0
    ensures NormalSpeed(d1, d2, distance) * distance == Closing(d1, d2)
    ensures NormalSpeed(d1, d2, distance) > 0.0 <==> Closing(d1, d2) > 0.0
  {
    var rvx, rvy, dx, dy := d2.vx - d1.vx, d2.vy - d1.vy, d2.x - d1.x, d2.y - d1.y;
    var nx, ny := dx / distance, dy / distance;
    assert nx * distance == dx && ny * distance == dy;
    var s := rvx * nx + rvy * ny;
    assert s * distance == rvx * (nx * distance) + rvy * (ny * distance);
    assert s == NormalSpeed(d1, d2, distance);
    if s > 0.0 {
      assert s * distance > 0.0;
    } else {
      assert (-s) * distance >= 0.0;
    }
  }

  /** Outcome of an approaching collision with the source's intermediate values named. */
  lemma Approaching(d1: Dot, d2: Dot, distance: real, dotRadius: real)
    requires distance > 0.0 && d1.mass + d2.mass != 0.0
    requires Closing(d1, d2) <= 0.0
    ensures var nx, ny := (d2.x - d1.x) / distance, (d2.y - d1.y) / distance;
            var a := (-2.0 * NormalSpeed(d1, d2, distance)) / (d1.mass + d2.mass);
            var c := (dotRadius * d1.sizeScale + dotRadius * d2.sizeScale - distance) / 2.0;
            Collide(d1, d2, distance, dotRadius) == Respond(d1, d2, nx, ny, a, c)
  {
    SpeedSign(d1, d2, distance);
  }

  /** The dots after the source's velocity update along the unit normal (nx, ny) with
      impulse a, positions aside. */
  predicate Kicked(d1: Dot, d2: Dot, e1: Dot, e2: Dot, nx: real, ny: real, a: real) {
    && SameBody(d1, e1) && SameBody(d2, e2)
    && nx * nx + ny * ny == 1.0
    && a * (d1.mass + d2.mass) == -2.0 * ((d2.vx - d1.vx) * nx + (d2.vy - d1.vy) * ny)
    && KickApplied(d1, d2, e1, e2, nx, ny, a)
  }

  /** The velocity update of `resolveCollision` with impulse a along (nx, ny). */
  predicate KickApplied(d1: Dot, d2: Dot, e1: Dot, e2: Dot, nx: real, ny: real, a: real) {
    && e1.vx == d1.vx - a * nx * d2.mass && e1.vy == d1.vy - a * ny * d2.mass
    && e2.vx == d2.vx + a * nx * d1.mass && e2.vy == d2.vy + a * ny * d1.mass
  }

  lemma KickedEnergy(d1: Dot, d2: Dot, e1: Dot, e2: Dot, nx: real, ny: real, a: real)
    requires Kicked(d1, d2, e1, e2, nx, ny, a)
    ensures Energy(e1) + Energy(e2) == Energy(d1) + Energy(d2)
  {
    ImpulseKeepsEnergy(d1.vx, d1.vy, d2.vx, d2.vy, nx, ny, d1.mass, d2.mass, a,
                       e1.vx, e1.vy, e2.vx, e2.vy);
  }

  lemma KickedTangent(d1: Dot, d2: Dot, e1: Dot, e2: Dot, nx: real, ny: real, a: real)
    requires KickApplied(d1, d2, e1, e2, nx, ny, a)
    ensures Along(e1, -ny, nx) == Along(d1, -ny, nx) && Along(e2, -ny, nx) == Along(d2, -ny, nx)
  {
    var k1, k2 := -(a * d2.mass), a * d1.mass;
    Reassociate(a, nx, d2.mass);
    Reassociate(a, ny, d2.mass);
    Reassociate(a, nx, d1.mass);
    Reassociate(a, ny, d1.mass);
    ImpulseKeepsTangent(d1.vx, d1.vy, nx, ny, k1, e1.vx, e1.vy);
    ImpulseKeepsTangent(d2.vx, d2.vy, nx, ny, k2, e2.vx, e2.vy);
  }

  lemma Reassociate(a: real, n: real, m: real)
    ensures a * n * m == (a * m) * n
  {
  }

  lemma KickedSwap(d1: Dot, d2: Dot, e1: Dot, e2: Dot, nx: real, ny: real, a: real)
    requires Kicked(d1, d2, e1, e2, nx, ny, a) && d1.mass == d2.mass
    ensures Along(e1, nx, ny) == Along(d2, nx, ny) && Along(e2, nx, ny) == Along(d1, nx, ny)
  {
    EqualMassSwap(d1.vx, d1.vy, d2.vx, d2.vy, nx, ny, d1.mass, a, e1.vx, e1.vy, e2.vx, e2.vy);
  }

  /** An approaching collision applies Kicked with the source's normal and impulse. */
  lemma ApproachingKicks(d1: Dot, d2: Dot, distance: real, dotRadius: real)
    requires distance > 0.0 && d1.mass + d2.mass != 0.0
    requires distance * distance == (d2.x - d1.x) * (d2.x - d1.x) + (d2.y - d1.y) * (d2.y - d1.y)
    requires Closing(d1, d2) <= 0.0
    ensures var r := Collide(d1, d2, distance, dotRadius);
            Kicked(d1, d2, r.0, r.1, (d2.x - d1.x) / distance, (d2.y - d1.y) / distance,
                   (-2.0 * NormalSpeed(d1, d2, distance)) / (d1.mass + d2.mass))
  {
    var nx, ny := (d2.x - d1.x) / distance, (d2.y - d1.y) / distance;
    var a := (-2.0 * NormalSpeed(d1, d2, distance)) / (d1.mass + d2.mass);
    var c := (dotRadius * d1.sizeScale + dotRadius * d2.sizeScale - distance) / 2.0;
    UnitNormal(d2.x - d1.x, d2.y - d1.y, distance);
    QuotientTimes(-2.0 * NormalSpeed(d1, d2, distance), d1.mass + d2.mass);
    RespondKicks(d1, d2, nx, ny, a, c);
    Approaching(d1, d2, distance, dotRadius);
  }

  lemma RespondKicks(d1: Dot, d2: Dot, nx: real, ny: real, a: real, c: real)
    requires nx * nx + ny * ny == 1.0
    requires a * (d1.mass + d2.mass) == -2.0 * ((d2.vx - d1.vx) * nx + (d2.vy - d1.vy) * ny)
    ensures var r := Respond(d1, d2, nx, ny, a, c);
            Kicked(d1, d2, r.0, r.1, nx, ny, a) && Pushed(d1, d2, r.0, r.1, nx, ny, c)
  {
  }

  lemma QuotientTimes(x: real, y: real)
    requires y != 0.0
    ensures (x / y) * y == x
  {
  }

  /** The position update: each dot moves by c along the normal, away from the other. */
  predicate Pushed(d1: Dot, d2: Dot, e1: Dot, e2: Dot, nx: real, ny: real, c: real) {
    && e1.x == d1.x - nx * c && e1.y == d1.y - ny * c
    && e2.x == d2.x + nx * c && e2.y == d2.y + ny * c
  }

  /** The centres are exactly `radii` apart. */
  predicate Touching(e1: Dot, e2: Dot, radii: real) {
    (e2.x - e1.x) * (e2.x - e1.x) + (e2.y - e1.y) * (e2.y - e1.y) == radii * radii
  }

  /** Pushing centres that are `distance` apart along their unit normal by half of
      (radii - distance) each leaves them exactly `radii` apart. */
  lemma PushedSeparation(d1: Dot, d2: Dot, e1: Dot, e2: Dot, nx: real, ny: real,
                         distance: real, radii: real)
    requires nx * nx + ny * ny == 1.0
    requires nx * distance == d2.x - d1.x && ny * distance == d2.y - d1.y
    requires Pushed(d1, d2, e1, e2, nx, ny, (radii - distance) / 2.0)
    ensures Touching(e1, e2, radii)
  {
    var c := (radii - distance) / 2.0;
    assert e2.x - e1.x == nx * distance + nx * (2.0 * c);
    assert e2.x - e1.x == nx * radii;
    assert e2.y - e1.y == ny * distance + ny * (2.0 * c);
    assert e2.y - e1.y == ny * radii;
    ScaledUnit(nx, ny, radii, e2.x - e1.x, e2.y - e1.y);
  }

  /** After a resolved (approaching) collision the two centres are exactly the sum of
      the radii apart: the push moves each dot by half the overlap along the normal. */
  lemma CollisionLeavesDotsTouching(d1: Dot, d2: Dot, distance: real, dotRadius: real)
    requires distance > 0.0 && d1.mass + d2.mass != 0.0
    requires distance * distance == (d2.x - d1.x) * (d2.x - d1.x) + (d2.y - d1.y) * (d2.y - d1.y)
    requires Closing(d1, d2) <= 0.0
    ensures var r := Collide(d1, d2, distance, dotRadius);
            Touching(r.0, r.1, dotRadius * d1.sizeScale + dotRadius * d2.sizeScale)
  {
    var nx, ny := (d2.x - d1.x) / distance, (d2.y - d1.y) / distance;
    UnitNormal(d2.x - d1.x, d2.y - d1.y, distance);
    RespondTouching(d1, d2, nx, ny, distance, (-2.0 * NormalSpeed(d1, d2, distance)) / (d1.mass + d2.mass),
                    dotRadius * d1.sizeScale + dotRadius * d2.sizeScale);
    Approaching(d1, d2, distance, dotRadius);
  }

  lemma RespondTouching(d1: Dot, d2: Dot, nx: real, ny: real, distance: real, a: real, radii: real)
    requires nx * nx + ny * ny == 1.0
    requires nx * distance == d2.x - d1.x && ny * distance == d2.y - d1.y
    ensures var r := Respond(d1, d2, nx, ny, a, (radii - distance) / 2.0);
            Touching(r.0, r.1, radii)
  {
    var r := Respond(d1, d2, nx, ny, a, (radii - distance) / 2.0);
    PushedSeparation(d1, d2, r.0, r.1, nx, ny, distance, radii);
  }

  /** Projection of a dot's velocity on the direction (nx, ny). */
  function Along(d: Dot, nx: real, ny: real): real {
    d.vx * nx + d.vy * ny
  }

  /** Every collision keeps both dots' velocity components along the tangent, and equal
      masses exchange their components along the normal: the textbook elastic exchange. */
  lemma CollisionExchangesNormalVelocity(d1: Dot, d2: Dot, distance: real, dotRadius: real)
    requires distance > 0.0 && d1.mass + d2.mass != 0.0
    requires distance * distance == (d2.x - d1.x) * (d2.x - d1.x) + (d2.y - d1.y) * (d2.y - d1.y)
    ensures var r := Collide(d1, d2, distance, dotRadius);
            var nx, ny := (d2.x - d1.x) / distance, (d2.y - d1.y) / distance;
            && Along(r.0, -ny, nx) == Along(d1, -ny, nx)
            && Along(r.1, -ny, nx) == Along(d2, -ny, nx)
            && (Closing(d1, d2) <= 0.0 && d1.mass == d2.mass ==>
                  Along(r.0, nx, ny) == Along(d2, nx, ny) && Along(r.1, nx, ny) == Along(d1, nx, ny))
  {
    if Closing(d1, d2) <= 0.0 {
      ApproachingKicks(d1, d2, distance, dotRadius);
      var r := Collide(d1, d2, distance, dotRadius);
      var nx, ny := (d2.x - d1.x) / distance, (d2.y - d1.y) / distance;
      var a := (-2.0 * NormalSpeed(d1, d2, distance)) / (d1.mass + d2.mass);
      KickedTangent(d1, d2, r.0, r.1, nx, ny, a);
      if d1.mass == d2.mass {
        KickedSwap(d1, d2, r.0, r.1, nx, ny, a);
      }
    }
  }

  /** The response is elastic: total kinetic energy (doubled, without the 1/2) is kept. */
  lemma CollisionConservesEnergy(d1: Dot, d2: Dot, distance: real, dotRadius: real)
    requires distance > 0.0 && d1.mass + d2.mass != 0.0
    requires distance * distance == (d2.x - d1.x) * (d2.x - d1.x) + (d2.y - d1.y) * (d2.y - d1.y)
    ensures var r := Collide(d1, d2, distance, dotRadius);
            Energy(r.0) + Energy(r.1) == Energy(d1) + Energy(d2)
  {
    if Closing(d1, d2) <= 0.0 {
      ApproachingKicks(d1, d2, distance, dotRadius);
      var r := Collide(d1, d2, distance, dotRadius);
      KickedEnergy(d1, d2, r.0, r.1, (d2.x - d1.x) / distance, (d2.y - d1.y) / distance,
                   (-2.0 * NormalSpeed(d1, d2, distance)) / (d1.mass + d2.mass));
    }
  }
}
