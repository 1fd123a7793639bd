/** The simulation object `Game` (js/game.js) without its DOM, widget and drawing code:
    the dots, the spatial hash rebuilt every frame, the integrator, the neighbour scan
    with elastic collisions, seeding and spawning, and the trail buffer's fade.

    Dots are values in the sequence `dots`; the grid holds their indices, so the dot
    objects that `checkCollisionsBetween` and `resolveCollision` update through the
    buckets are the entries of `dots` at those indices. */
module Game {
  import opened Arith
  import opened Options
  import opened CellKeys
  import opened Physics
  import opened SpatialGrid
  import opened Trail
  import opened Seeding
  import opened PerlinNoise

  /** `Math.cos`, `Math.sin` and `Math.PI`, handed to the model. */
  datatype Trig = Trig(cos: real -> real, sin: real -> real, pi: real)

  /** Cosine and sine stay within [-1, 1]. */
  ghost predicate UnitTrig(t: Trig) {
    forall a :: -1.0 <= t.cos(a) <= 1.0 && -1.0 <= t.sin(a) <= 1.0
  }

  /** `dx * dx + dy * dy` as `checkCollisionsBetween` computes it. */
  function Dist2(d1: Dot, d2: Dot): real {
    (d1.x - d2.x) * (d1.x - d2.x) + (d1.y - d2.y) * (d1.y - d2.y)
  }

  /** The two discs, of radius dotRadius * sizeScale, overlap and their centres differ. */
  predicate Overlapping(d1: Dot, d2: Dot, dotRadius: real) {
    var reach := dotRadius * d1.sizeScale + dotRadius * d2.sizeScale;
    0.0 < Dist2(d1, d2) < reach * reach
  }

  /** Every dot record keeps a positive size and mass == sizeScale^3. */
  predicate Sound(d: Dot) {
    d.sizeScale > 0.0 && d.mass > 0.0 && d.mass == Cube(d.sizeScale)
  }

  /** The sum of f over a sequence of dots. */
  function Total(s: seq<Dot>, f: Dot -> real): real
    decreases |s|
  {
    if |s| == 0 then 0.0 else Total(s[..|s| - 1], f) + f(s[|s| - 1])
  }

  /** What a round of collision resolution keeps: the same dots in the same order with
      the same bodies, and the same total momentum, centre-position sum and kinetic
      energy (sum of mass * speed^2). */
  ghost predicate Preserves(before: seq<Dot>, after: seq<Dot>) {
    && |after| == |before|
    && (forall k :: 0 <= k < |before| ==> SameBody(before[k], after[k]))
    && Total(after, MomentumX) == Total(before, MomentumX)
    && Total(after, MomentumY) == Total(before, MomentumY)
    && Total(after, PositionX) == Total(before, PositionX)
    && Total(after, PositionY) == Total(before, PositionY)
    && Total(after, Energy) == Total(before, Energy)
  }

  /** The frame's integration of every dot, given the field force at each dot. */
  function Integrated(s: seq<Dot>, forces: seq<Vec>, strength: real, c: Vec, dt: real): (r: seq<Dot>)
    requires |forces| == |s|
    ensures |r| == |s|
    ensures forall k :: 0 <= k < |s| ==> SameBody(s[k], r[k])
    ensures forall k :: 0 <= k < |s| ==>
      r[k].x == s[k].x + (s[k].vx + forces[k].x * strength * dt + c.x * dt) * dt
      && r[k].y == s[k].y + (s[k].vy + forces[k].y * strength * dt + c.y * dt) * dt
  {
    seq(|s|, k requires 0 <= k < |s| => Step(s[k], forces[k], strength, c, dt))
  }



  lemma CubePositive(s: real)
    requires s > 0.0
    ensures Cube(s) > 0.0
  {
  }

  /** A square root r of s: r > 0 exactly when s > 0, and r < R exactly when s < R^2
      for a non-negative R. */
  lemma RootFacts(s: real, r: real, reach: real)
    requires r >= 0.0 && r * r == s
    ensures r > 0.0 <==> s > 0.0
    ensures r < reach ==> s < reach * reach
    ensures reach >= 0.0 && s < reach * reach ==> r < reach
  {
    if r > 0.0 {
      calc { s; == r * r; > 0.0; }
    } else {
      calc { s; == r * r; == 0.0; }
    }
    if r < reach {
      calc { s; == r * r; <= r * reach; < reach * reach; }
    } else if reach >= 0.0 {
      calc { s; == r * r; >= r * reach; >= reach * reach; }
    }
  }

  /** Squared distances are never negative, and positive between different centres. */
  lemma Dist2Sign(d1: Dot, d2: Dot)
    ensures Dist2(d1, d2) >= 0.0
    ensures d1.x != d2.x || d1.y != d2.y ==> Dist2(d1, d2) > 0.0
  {
    var dx, dy := d1.x - d2.x, d1.y - d2.y;
    calc { Dist2(d1, d2); == dx * dx + dy * dy; >= dx * dx; >= 0.0; }
    if dx != 0.0 {
      calc { Dist2(d1, d2); == dx * dx + dy * dy; >= dx * dx; > 0.0; }
    } else if dy != 0.0 {
      calc { Dist2(d1, d2); == dx * dx + dy * dy; >= dy * dy; > 0.0; }
    }
  }

  /** What `Math.sqrt` gives for a positive argument: a positive root. */
  lemma PositiveRoot(sqrt: real -> real, v: real)
    requires IsSqrt(sqrt) && v > 0.0
    ensures sqrt(v) > 0.0 && sqrt(v) * sqrt(v) == v
  {
    RootFacts(v, sqrt(v), 0.0);
  }

  /** `Math.sqrt(dx * dx + dy * dy)` with dx = dot2.x - dot1.x, dy = dot2.y - dot1.y in
      `resolveCollision` (js/game.js:575-577): the centre distance, positive when the
      centres differ. */
  function Separation(d1: Dot, d2: Dot, sqrt: real -> real): (distance: real)
    requires IsSqrt(sqrt) && (d1.x != d2.x || d1.y != d2.y)
    ensures distance > 0.0
    ensures distance * distance == (d2.x - d1.x) * (d2.x - d1.x) + (d2.y - d1.y) * (d2.y - d1.y)
  {
    Dist2Sign(d2, d1);
    PositiveRoot(sqrt, Dist2(d2, d1));
    sqrt(Dist2(d2, d1))
  }

  /** Replacing one dot changes a total by the difference of the two dots' terms. */
  lemma {:induction false} TotalUpdate(s: seq<Dot>, k: nat, d: Dot, f: Dot -> real)
    requires k < |s|
    ensures Total(s[k := d], f) == Total(s, f) - f(s[k]) + f(d)
    decreases |s|
  {
    var t := s[k := d];
    if k < |s| - 1 {
      assert t[..|t| - 1] == s[..|s| - 1][k := d];
      TotalUpdate(s[..|s| - 1], k, d, f);
    } else {
      assert t[..|t| - 1] == s[..|s| - 1];
    }
  }

  /** Replacing dots i and j by a and b changes a total by the difference of the pairs. */
  lemma PairUpdate(s: seq<Dot>, i: nat, j: nat, a: Dot, b: Dot, f: Dot -> real)
    requires i < |s| && j < |s| && i != j
    ensures Total(s[i := a][j := b], f) == Total(s, f) - f(s[i]) - f(s[j]) + f(a) + f(b)
  {
    TotalUpdate(s, i, a, f);
    TotalUpdate(s[i := a], j, b, f);
  }

  /** One resolution leaves every total of the whole dot list unchanged. */
  lemma ResolvePreserves(s: seq<Dot>, i: nat, j: nat, distance: real, dotRadius: real)
    requires i < |s| && j < |s| && i != j
    requires distance > 0.0 && s[i].mass + s[j].mass != 0.0
    requires distance * distance
      == (s[j].x - s[i].x) * (s[j].x - s[i].x) + (s[j].y - s[i].y) * (s[j].y - s[i].y)
    ensures var r := Collide(s[i], s[j], distance, dotRadius);
            Preserves(s, s[i := r.0][j := r.1])
  {
    var r := Collide(s[i], s[j], distance, dotRadius);
    CollisionConservesEnergy(s[i], s[j], distance, dotRadius);
    PairPreserves(s, i, j, r.0, r.1);
  }

  /** Replacing two dots by a pair with the same bodies and the same pair sums keeps
      every total. */
  lemma PairPreserves(s: seq<Dot>, i: nat, j: nat, a: Dot, b: Dot)
    requires i < |s| && j < |s| && i != j
    requires SameBody(s[i], a) && SameBody(s[j], b)
    requires MomentumX(a) + MomentumX(b) == MomentumX(s[i]) + MomentumX(s[j])
    requires MomentumY(a) + MomentumY(b) == MomentumY(s[i]) + MomentumY(s[j])
    requires a.x + b.x == s[i].x + s[j].x && a.y + b.y == s[i].y + s[j].y
    requires Energy(a) + Energy(b) == Energy(s[i]) + Energy(s[j])
    ensures Preserves(s, s[i := a][j := b])
  {
    PairUpdate(s, i, j, a, b, MomentumX);
    PairUpdate(s, i, j, a, b, MomentumY);
    PairUpdate(s, i, j, a, b, PositionX);
    PairUpdate(s, i, j, a, b, PositionY);
    PairUpdate(s, i, j, a, b, Energy);
  }

  /** The force-field clock after a frame of dt seconds at the given speed
      (js/game.js:312). */
  function Tick(t: real, dt: real, speed: real): (r: real)
    ensures speed == 0.0 || dt == 0.0 ==> r == t
  {
    t + dt * speed
  }

  lemma PreservesTrans(a: seq<Dot>, b: seq<Dot>, c: seq<Dot>)
    requires Preserves(a, b) && Preserves(b, c)
    ensures Preserves(a, c)
  {
  }

  /** Every dot record is sound. */
  predicate DotsSound(s: seq<Dot>) {
    forall k :: 0 <= k < |s| ==> Sound(s[k])
  }

  /** Keeping every body keeps every dot sound. */
  lemma PreservesSound(s: seq<Dot>, r: seq<Dot>)
    requires DotsSound(s) && Preserves(s, r)
    ensures DotsSound(r)
  {
    forall k | 0 <= k < |r| ensures Sound(r[k]) {
      assert SameBody(s[k], r[k]);
    }
  }

  /** What the visit of the pair (a, b) does to the dot list: nothing when a and b are
      the same dot or the discs do not overlap, otherwise both dots take the outcome of
      `resolveCollision` at their centre distance (js/game.js:382-400).  Every dot stays
      sound; `PairStepPreserves` shows every total is kept. */
  function PairStep(s: seq<Dot>, a: nat, b: nat, dotRadius: real, sqrt: real -> real): (r: seq<Dot>)
    requires IsSqrt(sqrt) && DotsSound(s) && a < |s| && b < |s|
    ensures |r| == |s| && DotsSound(r)
    ensures a == b || !Overlapping(s[a], s[b], dotRadius) ==> r == s
  {
    if a == b || !Overlapping(s[a], s[b], dotRadius) then s
    else
      var distance := Separation(s[a], s[b], sqrt);
      var c := Collide(s[a], s[b], distance, dotRadius);
      ResolvePreserves(s, a, b, distance, dotRadius);
      PreservesSound(s, s[a := c.0][b := c.1]);
      s[a := c.0][b := c.1]
  }

  /** A visit of two overlapping dots is `resolveCollision` on them. */
  lemma PairStepResolves(s: seq<Dot>, a: nat, b: nat, dotRadius: real, sqrt: real -> real)
    requires IsSqrt(sqrt) && DotsSound(s) && a < |s| && b < |s|
    requires a != b && Overlapping(s[a], s[b], dotRadius)
    ensures s[a].x != s[b].x || s[a].y != s[b].y
    ensures var c := Collide(s[a], s[b], Separation(s[a], s[b], sqrt), dotRadius);
            PairStep(s, a, b, dotRadius, sqrt) == s[a := c.0][b := c.1]
  {
  }

  /** One visit keeps every total. */
  lemma PairStepPreserves(s: seq<Dot>, a: nat, b: nat, dotRadius: real, sqrt: real -> real)
    requires IsSqrt(sqrt) && DotsSound(s) && a < |s| && b < |s|
    ensures Preserves(s, PairStep(s, a, b, dotRadius, sqrt))
  {
    if a != b && Overlapping(s[a], s[b], dotRadius) {
      ResolvePreserves(s, a, b, Separation(s[a], s[b], sqrt), dotRadius);
    }
  }

  /** The dot list after visiting the pairs in order; every dot stays sound. */
  function ApplyPairs(s: seq<Dot>, pairs: seq<(nat, nat)>, dotRadius: real, sqrt: real -> real): (r: seq<Dot>)
    requires IsSqrt(sqrt) && DotsSound(s) && PairsIn(pairs, |s|)
    ensures |r| == |s| && DotsSound(r)
    decreases |pairs|
  {
    if |pairs| == 0 then s
    else
      var p := pairs[|pairs| - 1];
      PairStep(ApplyPairs(s, pairs[..|pairs| - 1], dotRadius, sqrt), p.0, p.1, dotRadius, sqrt)
  }

  /** However many pairs are visited, the total momentum, the centre sum and the kinetic
      energy of all dots are what they were, and no dot changes its body. */
  lemma {:induction false} ApplyPairsPreserves(s: seq<Dot>, pairs: seq<(nat, nat)>, dotRadius: real, sqrt: real -> real)
    requires IsSqrt(sqrt) && DotsSound(s) && PairsIn(pairs, |s|)
    ensures Preserves(s, ApplyPairs(s, pairs, dotRadius, sqrt))
    decreases |pairs|
  {
    if |pairs| > 0 {
      var prev := ApplyPairs(s, pairs[..|pairs| - 1], dotRadius, sqrt);
      var p := pairs[|pairs| - 1];
      ApplyPairsPreserves(s, pairs[..|pairs| - 1], dotRadius, sqrt);
      PairStepPreserves(prev, p.0, p.1, dotRadius, sqrt);
      PreservesTrans(s, prev, ApplyPairs(s, pairs, dotRadius, sqrt));
    }
  }

  /** Visiting one more pair is one more `PairStep`. */
  lemma ApplyPairsSnoc(s: seq<Dot>, pairs: seq<(nat, nat)>, p: (nat, nat), dotRadius: real, sqrt: real -> real)
    requires IsSqrt(sqrt) && DotsSound(s) && PairsIn(pairs, |s|) && p.0 < |s| && p.1 < |s|
    ensures ApplyPairs(s, pairs + [p], dotRadius, sqrt)
            == PairStep(ApplyPairs(s, pairs, dotRadius, sqrt), p.0, p.1, dotRadius, sqrt)
  {
    assert (pairs + [p])[..|pairs|] == pairs;
  }

  /** Visiting p and then q is visiting p + q. */
  lemma {:induction false} ApplyPairsAppend(s: seq<Dot>, p: seq<(nat, nat)>, q: seq<(nat, nat)>,
                                            dotRadius: real, sqrt: real -> real)
    requires IsSqrt(sqrt) && DotsSound(s) && PairsIn(p, |s|) && PairsIn(q, |s|)
    ensures ApplyPairs(ApplyPairs(s, p, dotRadius, sqrt), q, dotRadius, sqrt)
            == ApplyPairs(s, p + q, dotRadius, sqrt)
    decreases |q|
  {
    if |q| == 0 {
      assert p + q == p;
    } else {
      var init := q[..|q| - 1];
      assert (p + q)[..|p + q| - 1] == p + init;
      ApplyPairsAppend(s, p, init, dotRadius, sqrt);
    }
  }

  /** The rebuilt grid names only dots. */
  lemma GridOfInRange(dots: seq<Dot>, gridSize: real)
    requires gridSize > 0.0
    ensures GridInRange(GridOf(dots, gridSize), |dots|)
  {
    GridOfPartitions(dots, gridSize);
  }

  /** `getForceAt(x, y)` at field time t over the noise table `table` with field scale
      `scale`: two noise samples at the scaled position, turned into angles and then
      into (cos, sin) (js/game.js:501-533).  Without a usable noise table the source
      returns (0, 0), and so does the model.  Each component lies in [-1, 1], whatever
      the noise gives. */
  function FieldForce(table: seq<int>, scale: real, trig: Trig, x: real, y: real, t: real): (f: Vec)
    ensures UnitTrig(trig) ==> -1.0 <= f.x <= 1.0 && -1.0 <= f.y <= 1.0
    ensures !(|table| == 512 && IsByteTable(table)) ==> f == Vec(0.0, 0.0)
  {
    if |table| == 512 && IsByteTable(table) then
      var angleX := NoiseOf(table, x * scale, y * scale, t) * trig.pi * 2.0;
      var angleY := NoiseOf(table, y * scale, x * scale, t + 1000.0) * trig.pi * 2.0;
      Vec(trig.cos(angleX), trig.sin(angleY))
    else
      Vec(0.0, 0.0)
  }

  /** `getForceAt` as a function of position and field time. */
  function NoiseField(table: seq<int>, scale: real, trig: Trig): (real, real, real) -> Vec {
    (x: real, y: real, t: real) => FieldForce(table, scale, trig, x, y, t)
  }

  /** The field force `getForceAt` gives at every dot of s at field time t, with the
      force field handed in as a function of position and field time. */
  function FieldAt(s: seq<Dot>, field: (real, real, real) -> Vec, t: real): (fs: seq<Vec>)
    ensures |fs| == |s|
  {
    seq(|s|, k requires 0 <= k < |s| => field(s[k].x, s[k].y, t))
  }

  /** The scan's test `distance < radius1 + radius2` on the square root of Dist2, together
      with the model's extra guard `distance > 0`, holds exactly when the two discs overlap
      with distinct centres. */
  lemma DistanceTest(dot1: Dot, dot2: Dot, distance: real, dotRadius: real)
    requires dotRadius > 0.0 && dot1.sizeScale > 0.0 && dot2.sizeScale > 0.0
    requires distance >= 0.0 && distance * distance == Dist2(dot1, dot2)
    ensures (distance < dotRadius * dot1.sizeScale + dotRadius * dot2.sizeScale && distance > 0.0)
            <==> Overlapping(dot1, dot2, dotRadius)
    ensures distance > 0.0 ==> dot1.x != dot2.x || dot1.y != dot2.y
  {
    MulPositive(dotRadius, dot1.sizeScale);
    MulPositive(dotRadius, dot2.sizeScale);
    RootFacts(Dist2(dot1, dot2), distance, dotRadius * dot1.sizeScale + dotRadius * dot2.sizeScale);
  }

  /** The overlap test as written at js/game.js:397 is `distance < radius1 + radius2`
      alone.  Two dots at the same centre have distance 0 and pass it, so the source calls
      `resolveCollision`, which divides by that distance (js/game.js:575-576) and writes
      NaN into both dots.  The pair is not Overlapping, so DistanceTest's guarded test
      and PairStep leave it alone. */
  lemma CoincidentPassesSourceTest(dot1: Dot, dot2: Dot, distance: real, dotRadius: real)
    requires dotRadius > 0.0 && dot1.sizeScale > 0.0 && dot2.sizeScale > 0.0
    requires dot1.x == dot2.x && dot1.y == dot2.y
    requires distance >= 0.0 && distance * distance == Dist2(dot1, dot2)
    ensures distance == 0.0
    ensures distance < dotRadius * dot1.sizeScale + dotRadius * dot2.sizeScale
    ensures !Overlapping(dot1, dot2, dotRadius)
  {
    assert Dist2(dot1, dot2) == 0.0;
    RootFacts(Dist2(dot1, dot2), distance, 0.0);
    MulPositive(dotRadius, dot1.sizeScale);
    MulPositive(dotRadius, dot2.sizeScale);
  }

  /** The first loop of `update`: each dot's velocity gains the field force at its
      position, times the strength and the time step (js/game.js:315-321). */
  method ApplyFieldForce(s: seq<Dot>, field: (real, real, real) -> Vec, t: real, strength: real, dt: real)
    returns (r: seq<Dot>)
    ensures |r| == |s|
    ensures forall k :: 0 <= k < |s| ==> r[k] == FieldKick(s[k], field(s[k].x, s[k].y, t), strength, dt)
  {
    r := s;
    for k := 0 to |r|
      invariant |r| == |s|
      invariant forall m :: 0 <= m < k ==> r[m] == FieldKick(s[m], field(s[m].x, s[m].y, t), strength, dt)
      invariant forall m :: k <= m < |r| ==> r[m] == s[m]
    {
      var dot := r[k];
      var force := field(dot.x, dot.y, t);
      r := r[k := dot.(vx := dot.vx + force.x * strength * dt, vy := dot.vy + force.y * strength * dt)];
    }
  }

  /** The second loop of `update`: each velocity gains the constant force times the time
      step (js/game.js:323-327). */
  method ApplyConstantForce(s: seq<Dot>, c: Vec, dt: real) returns (r: seq<Dot>)
    ensures |r| == |s|
    ensures forall k :: 0 <= k < |s| ==> r[k] == ConstantKick(s[k], c, dt)
  {
    r := s;
    for k := 0 to |r|
      invariant |r| == |s|
      invariant forall m :: 0 <= m < k ==> r[m] == ConstantKick(s[m], c, dt)
      invariant forall m :: k <= m < |r| ==> r[m] == s[m]
    {
      r := r[k := ConstantKick(r[k], c, dt)];
    }
  }

  /** The third loop of `update`: each dot moves by its velocity times the time step,
      then its velocity is damped by 1 - friction * dt (js/game.js:329-337). */
  method Move(s: seq<Dot>, dt: real) returns (r: seq<Dot>)
    ensures |r| == |s|
    ensures forall k :: 0 <= k < |s| ==> r[k] == Advance(s[k], dt)
  {
    r := s;
    for k := 0 to |r|
      invariant |r| == |s|
      invariant forall m :: 0 <= m < k ==> r[m] == Advance(s[m], dt)
      invariant forall m :: k <= m < |r| ==> r[m] == s[m]
    {
      var dot := r[k];
      dot := dot.(x := dot.x + dot.vx * dt, y := dot.y + dot.vy * dt);
      dot := dot.(vx := dot.vx * (1.0 - dot.friction * dt), vy := dot.vy * (1.0 - dot.friction * dt));
      r := r[k := dot];
    }
  }

  /** The three passes of `update` in a row are the frame's integration. */
  lemma ThreePasses(s: seq<Dot>, forces: seq<Vec>, strength: real, c: Vec, dt: real, r: seq<Dot>)
    requires |forces| == |s| && |r| == |s|
    requires forall k :: 0 <= k < |s| ==> r[k] == Advance(ConstantKick(FieldKick(s[k], forces[k], strength, dt), c, dt), dt)
    ensures r == Integrated(s, forces, strength, c, dt)
  {
    var moved := Integrated(s, forces, strength, c, dt);
    forall k | 0 <= k < |s| ensures r[k] == moved[k] {
    }
  }

  /** Integration keeps every dot sound: it never touches size, mass or friction. */
  lemma IntegratedSound(s: seq<Dot>, forces: seq<Vec>, strength: real, c: Vec, dt: real)
    requires |forces| == |s| && DotsSound(s)
    ensures DotsSound(Integrated(s, forces, strength, c, dt))
  {
    var moved := Integrated(s, forces, strength, c, dt);
    forall k | 0 <= k < |s| ensures Sound(moved[k]) {
      assert SameBody(s[k], moved[k]);
    }
  }

  /** The three velocity and position passes of `update` (js/game.js:315-337), run one
      after the other over the dots. */
  method Integrate(s: seq<Dot>, field: (real, real, real) -> Vec, t: real, strength: real, c: Vec, dt: real)
    returns (r: seq<Dot>)
    ensures r == Integrated(s, FieldAt(s, field, t), strength, c, dt)
  {
    var s1 := ApplyFieldForce(s, field, t, strength, dt);
    var s2 := ApplyConstantForce(s1, c, dt);
    r := Move(s2, dt);
    ThreePasses(s, FieldAt(s, field, t), strength, c, dt, r);
  }

  class Game {
    const width: nat
    const height: nat
    const pixelRatio: real
    const dotRadius: real
    var forceFieldScale: real
    var forceFieldTime: real
    var forceFieldSpeed: real
    var forceFieldStrength: real
    var trailFade: real
    const gridSize: real
    const currentSettings: Settings
    const initialDotCount: nat
    var enableCollisions: bool
    const constantForce: Vec
    var spawnInterval: real
    var lastSpawnTime: real
    var lastTime: real
    var trailEnabled: bool
    var dots: seq<Dot>
    var grid: seq<Bucket>
    /** The trail canvas's RGBA bytes, four per pixel. */
    const trail: array<int>
    const perlin: Perlin

    /** The noise table is valid and the trail buffer, a separate array, holds bytes. */
    ghost predicate Ready()
      reads perlin, perlin.p, perlin.perm, trail
    {
      && perlin.Valid()
      && trail != perlin.p && trail != perlin.perm
      && IsByteArray(trail[..])
    }

    /** Positive radius, cell size and dot size; every dot sound; every grid entry the
        index of a dot. */
    ghost predicate Valid()
      reads this`dots, this`grid
    {
      && dotRadius > 0.0 && gridSize > 0.0
      && currentSettings.sizeScale > 0.0
      && DotsSound(dots) && GridInRange(grid, |dots|)
    }

    /** `new Game()` on a canvas of width x height pixels: the 256 draws build the noise
        table, `now` is `performance.now()` at construction, and the trail canvas starts
        transparent (js/game.js:3-236).  The loop's `lastTime` is first set by `Start`. */
    constructor (width: nat, height: nat, pixelRatio: real, draws: seq<real>, now: real)
      requires pixelRatio > 0.0
      requires |draws| == 256 && forall k :: 0 <= k < 256 ==> 0.0 <= draws[k] < 1.0
      ensures Valid() && Ready() && fresh(perlin) && fresh(perlin.p) && fresh(perlin.perm) && fresh(trail)
      ensures this.width == width && this.height == height && this.pixelRatio == pixelRatio
      ensures dotRadius == 5.0 * pixelRatio && gridSize == 50.0 && grid == []
      ensures forceFieldScale == 0.005 && forceFieldTime == 0.0
      ensures forceFieldSpeed == 0.1 && forceFieldStrength == 100.0
      ensures currentSettings == Settings(1.0, 1.0) && initialDotCount == 1000
      ensures dots == Seeded(1000, width as real, height as real, Settings(1.0, 1.0))
      ensures !enableCollisions && !trailEnabled && trailFade == 0.98
      ensures constantForce == Vec(-200.0, 0.0) && spawnInterval == 1.0 && lastSpawnTime == now
      ensures trail.Length == 4 * width * height
      ensures forall k :: 0 <= k < trail.Length ==> trail[k] == 0
    {
      perlin := new Perlin(draws);
      forceFieldScale := 0.005;
      forceFieldTime := 0.0;
      forceFieldSpeed := 0.1;
      forceFieldStrength := 100.0;
      this.pixelRatio := pixelRatio;
      dots := [];
      dotRadius := 5.0 * pixelRatio;
      trailFade := 0.98;
      this.width := width;
      this.height := height;
      trail := new int[4 * width * height](k => 0);
      gridSize := 50.0;
      grid := [];
      currentSettings := Settings(1.0, 1.0);
      initialDotCount := 1000;
      enableCollisions := false;
      constantForce := Vec(-200.0, 0.0);
      spawnInterval := 1.0;
      lastSpawnTime := now;
      trailEnabled := false;
      new;
      InitializeDots();
    }

    /** `initializeDots`: append initialDotCount dots at rest, laid out row by row on a
        ceil(sqrt(n)) x ceil(n / cols) grid over the canvas (js/game.js:238-266). */
    method InitializeDots()
      requires Valid()
      modifies this`dots
      ensures Valid()
      ensures dots == old(dots) + Seeded(initialDotCount, width as real, height as real, currentSettings)
    {
      var n := initialDotCount;
      var (cols, rows) := Layout(n);
      ghost var seeded := Seeded(n, width as real, height as real, currentSettings);
      if n == 0 {
        // cols is 0 and the source's loop runs no iteration
        return;
      }
      var spacingX := width as real / cols as real;
      var spacingY := height as real / rows as real;
      var s := currentSettings;
      CubePositive(s.sizeScale);
      ghost var before := dots;
      for i := 0 to n
        invariant dots == before + seeded[..i]
      {
        var col := i % cols;
        var row := i / cols;
        var x := col as real * spacingX + spacingX / 2.0;
        var y := row as real * spacingY + spacingY / 2.0;
        var dot := Dot(x, y, 0.0, 0.0, 0.0, 0.0, s.friction, s.sizeScale, Cube(s.sizeScale));
        assert dot == SeedDot(i, cols, rows, width as real, height as real, s) == seeded[i];
        dots := dots + [dot];
        assert seeded[..i + 1] == seeded[..i] + [seeded[i]];
      }
      assert seeded[..n] == seeded;
      assert forall k :: 0 <= k < n ==> seeded[k].sizeScale == s.sizeScale && seeded[k].mass == Cube(s.sizeScale);
    }

    /** `spawnDotOnRight`, with its two `Math.random()` draws as parameters: one dot
        appended at the right edge (js/game.js:613-632). */
    method SpawnDotOnRight(randY: real, randVy: real)
      requires Valid() && 0.0 <= randY < 1.0 && 0.0 <= randVy < 1.0
      modifies this`dots
      ensures Valid()
      ensures dots == old(dots) + [SpawnedDot(width as real, height as real, randY, randVy, currentSettings)]
    {
      var x := width as real;
      var y := randY * height as real;
      var velocity := Vec(-100.0, (randVy - 0.5) * 50.0);
      CubePositive(currentSettings.sizeScale);
      var dot := Dot(x, y, velocity.x, velocity.y, 0.0, 0.0, currentSettings.friction,
                     currentSettings.sizeScale, Cube(currentSettings.sizeScale));
      assert dot == SpawnedDot(width as real, height as real, randY, randVy, currentSettings);
      assert Sound(dot);
      dots := dots + [dot];
    }

    /** `getForceAt(x, y)` at field time t, over this game's noise table and field scale. */
    function Field(trig: Trig): (real, real, real) -> Vec
      reads this`forceFieldScale, perlin, perlin.perm
    {
      NoiseField(perlin.perm[..], forceFieldScale, trig)
    }

    /** `updateSpatialGrid`: clear the Map, then file every dot under its cell key
        (js/game.js:345-361).  The result partitions the dots by cell. */
    method UpdateSpatialGrid()
      requires Valid()
      modifies this`grid
      ensures Valid()
      ensures grid == GridOf(dots, gridSize)
      ensures Partitions(grid, CellsOf(dots, gridSize))
    {
      var g := [];
      for i := 0 to |dots|
        invariant g == GridOf(dots[..i], gridSize)
      {
        var gridX := (dots[i].x / gridSize).Floor;
        var gridY := (dots[i].y / gridSize).Floor;
        var key := Key(gridX, gridY);
        assert dots[..i + 1][..i] == dots[..i];
        g := Place(g, key, i);
      }
      assert dots[..|dots|] == dots;
      GridOfInRange(dots, gridSize);
      GridOfPartitions(dots, gridSize);
      grid := g;
    }

    /** `update(deltaTime)`: rebuild the grid from the positions before the move, advance
        the field time, apply the field force at each dot, then the constant force, then
        move and damp every dot, and finally run the neighbour scan when collisions are
        on (js/game.js:305-343). */
    method Update(dt: real, trig: Trig, sqrt: real -> real)
      requires Valid() && IsSqrt(sqrt)
      modifies this`dots, this`grid, this`forceFieldTime
      ensures Valid() && |dots| == |old(dots)|
      ensures forceFieldTime == Tick(old(forceFieldTime), dt, forceFieldSpeed)
      ensures grid == GridOf(old(dots), gridSize) && PairsIn(ScanPairs(grid, |grid|), |old(dots)|)
      ensures DotsSound(Integrated(old(dots), FieldAt(old(dots), Field(trig), forceFieldTime),
                                   forceFieldStrength, constantForce, dt))
      ensures var moved := Integrated(old(dots), FieldAt(old(dots), Field(trig), forceFieldTime),
                                      forceFieldStrength, constantForce, dt);
              if enableCollisions then dots == ApplyPairs(moved, ScanPairs(grid, |grid|), dotRadius, sqrt)
              else dots == moved
    {
      UpdateSpatialGrid();
      ScanPairsIn(grid, |grid|, |dots|);
      MoveDots(dt, trig);
      if enableCollisions {
        CheckCollisionsWithGrid(sqrt);
      }
    }

    /** The middle of `update` (js/game.js:313-337): the field clock advances, then the
        three passes move every dot. */
    method MoveDots(dt: real, trig: Trig)
      requires Valid()
      modifies this`dots, this`forceFieldTime
      ensures Valid()
      ensures forceFieldTime == Tick(old(forceFieldTime), dt, forceFieldSpeed)
      ensures dots == Integrated(old(dots), FieldAt(old(dots), Field(trig), forceFieldTime),
                                 forceFieldStrength, constantForce, dt)
    {
      forceFieldTime := Tick(forceFieldTime, dt, forceFieldSpeed);
      var field := NoiseField(perlin.perm[..], forceFieldScale, trig);
      var moved := Integrate(dots, field, forceFieldTime, forceFieldStrength, constantForce, dt);
      IntegratedSound(dots, FieldAt(dots, field, forceFieldTime), forceFieldStrength, constantForce, dt);
      dots := moved;
    }

    /** `checkCollisionsWithGrid`: for every bucket in Map order, scan the cells around
        it (js/game.js:363-377).  The dots become the outcome of visiting `ScanPairs` in
        order. */
    method CheckCollisionsWithGrid(sqrt: real -> real)
      requires Valid() && IsSqrt(sqrt)
      modifies this`dots
      ensures Valid() && |dots| == |old(dots)| && PairsIn(ScanPairs(grid, |grid|), |dots|)
      ensures dots == ApplyPairs(old(dots), ScanPairs(grid, |grid|), dotRadius, sqrt)
    {
      ghost var start := dots;
      for b := 0 to |grid|
        invariant Valid() && |dots| == |start|
        invariant PairsIn(ScanPairs(grid, b), |start|)
        invariant dots == ApplyPairs(start, ScanPairs(grid, b), dotRadius, sqrt)
      {
        ghost var done := ScanPairs(grid, b);
        ScanStep(grid, b, |start|);
        CheckBucket(b, sqrt);
        ApplyPairsAppend(start, done, BucketPairs(grid, b), dotRadius, sqrt);
      }
    }

    /** The body of the bucket loop of `checkCollisionsWithGrid` for bucket b: parse its
        key and scan the nine cells around it, x offset outer and y offset inner, pairing
        the bucket with every neighbour bucket that exists (js/game.js:364-376). */
    method CheckBucket(b: nat, sqrt: real -> real)
      requires Valid() && IsSqrt(sqrt) && b < |grid|
      modifies this`dots
      ensures Valid() && |dots| == |old(dots)| && PairsIn(BucketPairs(grid, b), |dots|)
      ensures dots == ApplyPairs(old(dots), BucketPairs(grid, b), dotRadius, sqrt)
    {
      BucketPairsIn(grid, b, |dots|);
      var members := grid[b].members;
      match ParseKey(grid[b].key) {
        case Some((gridX, gridY)) =>
          ghost var start, keys := dots, Neighbourhood(gridX, gridY);
          assert forall m :: m in members ==> m < |start|;
          CellStart(grid, members, keys);
          for x := -1 to 2
            invariant Valid() && |dots| == |start|
            invariant PairsIn(CellPairs(grid, members, keys[..3 * (x + 1)]), |start|)
            invariant dots == ApplyPairs(start, CellPairs(grid, members, keys[..3 * (x + 1)]), dotRadius, sqrt)
          {
            for y := -1 to 2
              invariant Valid() && |dots| == |start|
              invariant PairsIn(CellPairs(grid, members, keys[..3 * (x + 1) + (y + 1)]), |start|)
              invariant dots == ApplyPairs(start, CellPairs(grid, members, keys[..3 * (x + 1) + (y + 1)]),
                                           dotRadius, sqrt)
            {
              ghost var k := 3 * (x + 1) + (y + 1);
              ghost var visited := CellPairs(grid, members, keys[..k]);
              var neighborKey := Key(gridX + x, gridY + y);
              NeighbourAt(gridX, gridY, x, y);
              CellStep(grid, members, keys, k, |start|);
              var found := Find(grid, neighborKey);
              if found.Some? {
                CheckCollisionsBetween(members, grid[found.value].members, sqrt);
                ApplyPairsAppend(start, visited, BetweenPairs(members, grid[found.value].members), dotRadius, sqrt);
              }
            }
          }
          BucketCells(grid, b, gridX, gridY);
        case None =>
      }
    }

    /** `checkCollisionsBetween(dots1, dots2)`: every ordered pair of two different dots,
        one from each list, is tested in turn (js/game.js:379-402).  The dots become the
        outcome of visiting `BetweenPairs(dots1, dots2)` in order. */
    method CheckCollisionsBetween(dots1: seq<nat>, dots2: seq<nat>, sqrt: real -> real)
      requires Valid() && IsSqrt(sqrt)
      requires forall m :: m in dots1 ==> m < |dots|
      requires forall m :: m in dots2 ==> m < |dots|
      modifies this`dots
      ensures Valid() && |dots| == |old(dots)|
      ensures dots == ApplyPairs(old(dots), BetweenPairs(dots1, dots2), dotRadius, sqrt)
    {
      ghost var start := dots;
      for i := 0 to |dots1|
        invariant Valid() && |dots| == |start|
        invariant PairsIn(BetweenPairs(dots1[..i], dots2), |start|)
        invariant dots == ApplyPairs(start, BetweenPairs(dots1[..i], dots2), dotRadius, sqrt)
      {
        ghost var done := BetweenPairs(dots1[..i], dots2);
        RowStart(done, dots1[i], dots2);
        for j := 0 to |dots2|
          invariant Valid() && |dots| == |start|
          invariant PairsIn(done + Row(dots1[i], dots2[..j]), |start|)
          invariant dots == ApplyPairs(start, done + Row(dots1[i], dots2[..j]), dotRadius, sqrt)
        {
          ghost var visited, pair := done + Row(dots1[i], dots2[..j]), (dots1[i], dots2[j]);
          assert dots1[i] in dots1 && dots2[j] in dots2;
          CheckPair(dots1[i], dots2[j], sqrt);
          ApplyPairsSnoc(start, visited, pair, dotRadius, sqrt);
          PairsInSnoc(visited, pair, |start|);
          RowStep(done, dots1[i], dots2, j);
        }
        BetweenStep(dots1, dots2, i);
      }
      assert dots1[..|dots1|] == dots1;
    }

    /** The body of the pair loop in `checkCollisionsBetween` for dots a and b: skip a
        dot paired with itself, otherwise resolve exactly when the centre distance is
        below the sum of the radii (js/game.js:382-400).  The model also skips two dots
        with the same centre, where `resolveCollision` would divide by zero. */
    method CheckPair(a: nat, b: nat, sqrt: real -> real)
      requires Valid() && IsSqrt(sqrt) && a < |dots| && b < |dots|
      modifies this`dots
      ensures Valid()
      ensures dots == PairStep(old(dots), a, b, dotRadius, sqrt)
    {
      if a == b {
        return;
      }
      var dot1 := dots[a];
      var dot2 := dots[b];
      var radius1 := dotRadius * dot1.sizeScale;
      var radius2 := dotRadius * dot2.sizeScale;
      var dx := dot1.x - dot2.x;
      var dy := dot1.y - dot2.y;
      Dist2Sign(dot1, dot2);
      assert dx * dx + dy * dy == Dist2(dot1, dot2);
      var distance := sqrt(dx * dx + dy * dy);
      DistanceTest(dot1, dot2, distance, dotRadius);
      if distance < radius1 + radius2 && distance > 0.0 {
        ghost var before := dots;
        ResolveCollision(a, b, sqrt);
        PairStepResolves(before, a, b, dotRadius, sqrt);
      }
    }

    /** `resolveCollision(dot1, dot2)` on dots i and j: both dots are rewritten in place
        with the outcome `Collide` computes from the centre distance (js/game.js:567-606). */
    method ResolveCollision(i: nat, j: nat, sqrt: real -> real)
      requires Valid() && IsSqrt(sqrt)
      requires i < |dots| && j < |dots| && i != j
      requires dots[i].x != dots[j].x || dots[i].y != dots[j].y
      modifies this`dots
      ensures Valid() && Preserves(old(dots), dots)
      ensures var r := Collide(old(dots[i]), old(dots[j]), Separation(old(dots[i]), old(dots[j]), sqrt), dotRadius);
              dots == old(dots)[i := r.0][j := r.1]
    {
      var dot1, dot2 := dots[i], dots[j];
      var distance := Separation(dot1, dot2, sqrt);
      var r := Collide(dot1, dot2, distance, dotRadius);
      ResolvePreserves(dots, i, j, distance, dotRadius);
      dots := dots[i := r.0][j := r.1];
    }

    /** `toggleCollisions(enabled)` (js/game.js:609-611). */
    method ToggleCollisions(enabled: bool)
      modifies this`enableCollisions
      ensures enableCollisions == enabled
    {
      enableCollisions := enabled;
    }

    /** The trails checkbox: switching trails off clears the trail canvas to transparent,
        switching them on keeps it (js/game.js:175-181). */
    method SetTrails(enabled: bool)
      requires Ready()
      modifies this`trailEnabled, trail
      ensures Ready() && trailEnabled == enabled
      ensures enabled ==> trail[..] == old(trail[..])
      ensures !enabled ==> forall k :: 0 <= k < trail.Length ==> trail[k] == 0
    {
      if !enabled {
        for k := 0 to trail.Length
          invariant forall m :: 0 <= m < k ==> trail[m] == 0
        {
          trail[k] := 0;
        }
        assert IsByteArray(trail[..]);
      }
      trailEnabled := enabled;
    }

    /** The delayed start: `lastTime` is set to the first timestamp (js/game.js:224-227). */
    method Start(now: real)
      modifies this`lastTime
      ensures lastTime == now
    {
      lastTime := now;
    }

    /** One pass of `loop` at timestamp `currentTime`, with the spawn's two random draws: time
        step in seconds, at most one spawn when more than spawnInterval has passed since
        the last, the update, and the trail fade of `render` when trails are on
        (js/game.js:289-303, 430-448).  `deltaTime` is the step in seconds and `pre` the
        dot list the update starts from. */
    method Frame(currentTime: real, randY: real, randVy: real, trig: Trig, sqrt: real -> real)
      returns (deltaTime: real, ghost pre: seq<Dot>)
      requires Valid() && Ready() && IsSqrt(sqrt)
      requires 0.0 <= randY < 1.0 && 0.0 <= randVy < 1.0
      modifies this`dots, this`grid, this`forceFieldTime, this`lastTime, this`lastSpawnTime, trail
      ensures Valid() && Ready() && lastTime == currentTime
      ensures deltaTime == (currentTime - old(lastTime)) / 1000.0
      ensures forceFieldTime == Tick(old(forceFieldTime), deltaTime, forceFieldSpeed)
      ensures var spawned := currentTime - old(lastSpawnTime) > spawnInterval;
              && pre == old(dots) + (if spawned
                   then [SpawnedDot(width as real, height as real, randY, randVy, currentSettings)] else [])
              && lastSpawnTime == (if spawned then currentTime else old(lastSpawnTime))
      ensures DotsSound(pre) && |dots| == |pre|
      ensures grid == GridOf(pre, gridSize) && PairsIn(ScanPairs(grid, |grid|), |pre|)
      ensures DotsSound(Integrated(pre, FieldAt(pre, Field(trig), forceFieldTime), forceFieldStrength,
                                   constantForce, deltaTime))
      ensures var moved := Integrated(pre, FieldAt(pre, Field(trig), forceFieldTime), forceFieldStrength,
                                      constantForce, deltaTime);
              if enableCollisions then dots == ApplyPairs(moved, ScanPairs(grid, |grid|), dotRadius, sqrt)
              else dots == moved
      ensures trail[..] == if trailEnabled then Decayed(old(trail[..]), (1.0 - trailFade) * 255.0) else old(trail[..])
    {
      deltaTime := (currentTime - lastTime) / 1000.0;
      lastTime := currentTime;
      SpawnIfDue(currentTime, randY, randVy);
      pre := dots;
      UpdateAndRender(deltaTime, trig, sqrt);
    }

    /** The tail of `loop` (js/game.js:299-300): `update(deltaTime)`, then the trail fade
        of `render`. */
    method UpdateAndRender(dt: real, trig: Trig, sqrt: real -> real)
      requires Valid() && Ready() && IsSqrt(sqrt)
      modifies this`dots, this`grid, this`forceFieldTime, trail
      ensures Valid() && Ready() && |dots| == |old(dots)|
      ensures forceFieldTime == Tick(old(forceFieldTime), dt, forceFieldSpeed)
      ensures grid == GridOf(old(dots), gridSize) && PairsIn(ScanPairs(grid, |grid|), |old(dots)|)
      ensures DotsSound(Integrated(old(dots), FieldAt(old(dots), Field(trig), forceFieldTime),
                                   forceFieldStrength, constantForce, dt))
      ensures var moved := Integrated(old(dots), FieldAt(old(dots), Field(trig), forceFieldTime),
                                      forceFieldStrength, constantForce, dt);
              if enableCollisions then dots == ApplyPairs(moved, ScanPairs(grid, |grid|), dotRadius, sqrt)
              else dots == moved
      ensures trail[..] == if trailEnabled then Decayed(old(trail[..]), (1.0 - trailFade) * 255.0) else old(trail[..])
    {
      Update(dt, trig, sqrt);
      ghost var field := Field(trig);
      FadeTrails();
      assert Field(trig) == field;
    }

    /** The spawn check of `loop`: a dot is spawned when more than `spawnInterval`
        milliseconds have passed since the last spawn (js/game.js:293-297). */
    method SpawnIfDue(currentTime: real, randY: real, randVy: real)
      requires Valid() && 0.0 <= randY < 1.0 && 0.0 <= randVy < 1.0
      modifies this`dots, this`lastSpawnTime
      ensures Valid()
      ensures var spawned := currentTime - old(lastSpawnTime) > spawnInterval;
              && dots == old(dots) + (if spawned
                   then [SpawnedDot(width as real, height as real, randY, randVy, currentSettings)] else [])
              && lastSpawnTime == if spawned then currentTime else old(lastSpawnTime)
    {
      if currentTime - lastSpawnTime > spawnInterval {
        SpawnDotOnRight(randY, randVy);
        lastSpawnTime := currentTime;
      } else {
        assert dots == dots + [];
      }
    }

    /** The trail part of `render`: when trails are on, every alpha byte of the trail
        buffer fades (js/game.js:434-446). */
    method FadeTrails()
      requires Ready()
      modifies trail
      ensures Ready()
      ensures trail[..] == if trailEnabled then Decayed(old(trail[..]), (1.0 - trailFade) * 255.0)
                           else old(trail[..])
    {
      if trailEnabled {
        ghost var before := trail[..];
        FadeTrail(trail, trailFade);
        DecayKeepsBytes(before, (1.0 - trailFade) * 255.0);
      }
    }
  }
}
