/** Ken Perlin's "improved noise" as the simulation builds it (js/perlin.js).

    Arithmetic is exact: JavaScript doubles are modelled as reals, so every identity
    below holds of the model without rounding error. */
module PerlinNoise {
  import opened Arith

  /** `n & 255` on a JavaScript number that holds an integer.  The operand is first
      reduced to 32-bit two's complement, which keeps it modulo 2^32, so its low byte
      is the Euclidean remainder modulo 256 (also for negative n: -1 & 255 == 255). */
  function Mask255(n: int): (r: int)
    ensures 0 <= r < 256
    ensures (n - r) % 256 == 0
  {
    n % 256
  }

  /** `Math.floor(Math.random() * 256)` for a random draw r in [0, 1) (js/perlin.js:21). */
  function RandomByte(r: real): (b: int)
    requires 0.0 <= r < 1.0
    ensures 0 <= b < 256
    ensures b as real <= r * 256.0 < b as real + 1.0
  {
    (r * 256.0).Floor
  }

  /** The quintic fade curve 6t^5 - 15t^4 + 10t^3 (js/perlin.js:63-65). */
  function Fade(t: real): (r: real)
    ensures t == 0.0 ==> r == 0.0
    ensures t == 1.0 ==> r == 1.0
  {
    t * t * t * (t * (t * 6.0 - 15.0) + 10.0)
  }

  /** Linear interpolation from a (at t = 0) to b (at t = 1) (js/perlin.js:67-69). */
  function Lerp(t: real, a: real, b: real): (r: real)
    ensures t == 0.0 ==> r == a
    ensures t == 1.0 ==> r == b
  {
    a + t * (b - a)
  }

  /** Gradient dot product selected by the low four bits of the hash (js/perlin.js:71-76).
      `h & 1` is h % 2 and `h & 2` is (h / 2) % 2 for 0 <= h < 16. */
  function Grad(hash: int, x: real, y: real, z: real): real {
    var h := Mask15(hash);
    var u := if h < 8 then x else y;
    var v := if h < 4 then y else if h == 12 || h == 14 then x else z;
    (if h % 2 == 0 then u else -u) + (if (h / 2) % 2 == 0 then v else -v)
  }

  /** `hash & 15`, the low four bits. */
  function Mask15(n: int): (r: int)
    ensures 0 <= r < 16
  {
    n % 16
  }

  /** The twelve edge directions of the cube listed as `grad3` in the constructor
      (js/perlin.js:4-8). */
  const Grad3: seq<(int, int, int)> := [
    (1, 1, 0), (-1, 1, 0), (1, -1, 0), (-1, -1, 0),
    (1, 0, 1), (-1, 0, 1), (1, 0, -1), (-1, 0, -1),
    (0, 1, 1), (0, -1, 1), (0, 1, -1), (0, -1, -1)
  ]

  /** The direction chosen for a four-bit hash: the twelve edges, then four of them
      again (Perlin's padding of 12 directions to 16). */
  function Direction(h: int): (int, int, int)
    requires 0 <= h < 16
  {
    if h < 12 then Grad3[h]
    else if h == 12 then Grad3[0]
    else if h == 13 then Grad3[9]
    else if h == 14 then Grad3[1]
    else Grad3[11]
  }

  function Dot3(g: (int, int, int), x: real, y: real, z: real): real {
    g.0 as real * x + g.1 as real * y + g.2 as real * z
  }

  /** The bit-twiddled selection in Grad is exactly the dot product with a table
      direction, and it depends on the hash only through `hash & 15`. */
  lemma GradIsTableDotProduct(hash: int, x: real, y: real, z: real)
    ensures Grad(hash, x, y, z) == Dot3(Direction(Mask15(hash)), x, y, z)
    ensures Grad(hash, x, y, z) == Grad(Mask15(hash), x, y, z)
  {
    var h := Mask15(hash);
    assert Mask15(h) == h;
    GradOfLowBits(h, x, y, z);
  }

  lemma GradOfLowBits(h: int, x: real, y: real, z: real)
    requires 0 <= h < 16
    ensures Grad(h, x, y, z) == Dot3(Direction(h), x, y, z)
  {
    assert Mask15(h) == h;
    if h == 0 {} else if h == 1 {} else if h == 2 {} else if h == 3 {}
    else if h == 4 {} else if h == 5 {} else if h == 6 {} else if h == 7 {}
    else if h == 8 {} else if h == 9 {} else if h == 10 {} else if h == 11 {}
    else if h == 12 {} else if h == 13 {} else if h == 14 {} else {}
  }

  /** For offsets inside the unit cube's neighbourhood the gradient term is in [-2, 2]. */
  lemma GradBounded(hash: int, x: real, y: real, z: real)
    requires -1.0 <= x <= 1.0 && -1.0 <= y <= 1.0 && -1.0 <= z <= 1.0
    ensures -2.0 <= Grad(hash, x, y, z) <= 2.0
  {
  }

  lemma GradAtOrigin(hash: int)
    ensures Grad(hash, 0.0, 0.0, 0.0) == 0.0
  {
  }

  /** The fade curve maps [0, 1] into [0, 1]. */
  lemma FadeInUnitInterval(t: real)
    requires 0.0 <= t <= 1.0
    ensures 0.0 <= Fade(t) <= 1.0
  {
    // 6t^2 - 15t + 10 has negative discriminant, so it is positive everywhere.
    var q := t * (t * 6.0 - 15.0) + 10.0;
    MulNonNegative(1.25 - t, 1.25 - t);
    assert q == 6.0 * ((1.25 - t) * (1.25 - t)) + 0.625;
    assert q > 0.0;
    var c := t * t * t;
    MulNonNegative(t, t);
    MulNonNegative(t * t, t);
    assert Fade(t) == c * q;
    MulNonNegative(c, q);
    // 1 - fade(t) == (1 - t)^3 (6t^2 + 3t + 1)
    var s := 1.0 - t;
    var q' := 6.0 * t * t + 3.0 * t + 1.0;
    assert 1.0 - Fade(t) == s * s * s * q';
    MulNonNegative(s, s);
    MulNonNegative(s * s, s);
    assert q' > 0.0;
    MulNonNegative(s * s * s, q');
  }

  /** The curve is point-symmetric about (1/2, 1/2). */
  lemma FadeSymmetric(t: real)
    ensures Fade(1.0 - t) == 1.0 - Fade(t)
  {
    var s := 1.0 - t;
    assert 1.0 - Fade(t) == s * s * s * (6.0 * t * t + 3.0 * t + 1.0);
    assert 6.0 * t * t + 3.0 * t + 1.0 == s * (s * 6.0 - 15.0) + 10.0;
  }

  /** For a weight in [0, 1] the interpolant lies between its two end values. */
  lemma LerpBetween(t: real, a: real, b: real)
    requires 0.0 <= t <= 1.0
    ensures a <= b ==> a <= Lerp(t, a, b) <= b
    ensures b <= a ==> b <= Lerp(t, a, b) <= a
  {
    if a <= b {
      MulNonNegative(t, b - a);
      MulNonNegative(1.0 - t, b - a);
    } else {
      MulNonNegative(t, a - b);
      MulNonNegative(1.0 - t, a - b);
    }
  }


  /** The fractional offset of a coordinate inside its unit cell (js/perlin.js:35-37). */
  function Frac(x: real): (f: real)
    ensures 0.0 <= f < 1.0
    ensures (x - f).Floor as real == x - f
  {
    x - x.Floor as real
  }

  /** Hashed indices of the eight cube corners (js/perlin.js:45-50). */
  datatype Corners = Corners(aa: int, ab: int, ba: int, bb: int)

  predicate IsByteTable(t: seq<int>) {
    forall k :: 0 <= k < |t| ==> 0 <= t[k] < 256
  }

  /** Every table read the noise function makes stays inside the 512-entry table:
      A and B are at most 510, so A + 1 and B + 1 are valid, and likewise each of
      AA, AB, BA, BB is at most 510 so that the `+ 1` corners are at most 511. */
  function HashCorners(perm: seq<int>, X: int, Y: int, Z: int): (c: Corners)
    requires |perm| == 512 && IsByteTable(perm)
    requires 0 <= X < 256 && 0 <= Y < 256 && 0 <= Z < 256
    ensures 0 <= c.aa <= 510 && 0 <= c.ab <= 510 && 0 <= c.ba <= 510 && 0 <= c.bb <= 510
  {
    var A := perm[X] + Y;
    var B := perm[X + 1] + Y;
    Corners(perm[A] + Z, perm[A + 1] + Z, perm[B] + Z, perm[B + 1] + Z)
  }

  /** Trilinear blend of the eight corner gradients; `perm` is the doubled table and
      (fx, fy, fz) the offsets inside the cell.  The blend interpolates, with weight
      fade(fz), between the faces at offsets fz and fz - 1 (js/perlin.js:53-60). */
  function Blend(perm: seq<int>, c: Corners, fx: real, fy: real, fz: real): real
    requires |perm| == 512
    requires 0 <= c.aa <= 510 && 0 <= c.ab <= 510 && 0 <= c.ba <= 510 && 0 <= c.bb <= 510
  {
    var u, v, w := Fade(fx), Fade(fy), Fade(fz);
    Lerp(w, Face(perm, c.aa, c.ba, c.ab, c.bb, fx, fy, fz, u, v),
            Face(perm, c.aa + 1, c.ba + 1, c.ab + 1, c.bb + 1, fx, fy, fz - 1.0, u, v))
  }

  /** The bilinear blend over one face of the cell: the gradients of the four corners
      with hashes at perm[i00], perm[i10], perm[i01], perm[i11], weighted by u along x
      and by v along y. */
  function Face(perm: seq<int>, i00: int, i10: int, i01: int, i11: int,
                fx: real, fy: real, z: real, u: real, v: real): real
    requires |perm| == 512
    requires 0 <= i00 < 512 && 0 <= i10 < 512 && 0 <= i01 < 512 && 0 <= i11 < 512
  {
    Lerp(v, Lerp(u, Grad(perm[i00], fx, fy, z), Grad(perm[i10], fx - 1.0, fy, z)),
            Lerp(u, Grad(perm[i01], fx, fy - 1.0, z), Grad(perm[i11], fx - 1.0, fy - 1.0, z)))
  }

  /** `noise(x, y, z)` over any 512-entry byte table (js/perlin.js:28-61).  The value is
      bounded by 2 in magnitude everywhere. */
  function NoiseOf(perm: seq<int>, x: real, y: real, z: real): (r: real)
    requires |perm| == 512 && IsByteTable(perm)
    ensures -2.0 <= r <= 2.0
  {
    var X, Y, Z := Mask255(x.Floor), Mask255(y.Floor), Mask255(z.Floor);
    var c := HashCorners(perm, X, Y, Z);
    BlendBounded(perm, c, Frac(x), Frac(y), Frac(z));
    Blend(perm, c, Frac(x), Frac(y), Frac(z))
  }

  lemma {:induction false} Lerp2Bounded(t: real, a: real, b: real)
    requires 0.0 <= t <= 1.0 && -2.0 <= a <= 2.0 && -2.0 <= b <= 2.0
    ensures -2.0 <= Lerp(t, a, b) <= 2.0
  {
    LerpBetween(t, a, b);
  }

  /** With offsets in [0, 1) every corner term is in [-2, 2], and interpolating with
      weights in [0, 1] keeps it there. */
  lemma BlendBounded(perm: seq<int>, c: Corners, fx: real, fy: real, fz: real)
    requires |perm| == 512
    requires 0 <= c.aa <= 510 && 0 <= c.ab <= 510 && 0 <= c.ba <= 510 && 0 <= c.bb <= 510
    requires 0.0 <= fx < 1.0 && 0.0 <= fy < 1.0 && 0.0 <= fz < 1.0
    ensures -2.0 <= Blend(perm, c, fx, fy, fz) <= 2.0
  {
    var u, v, w := Fade(fx), Fade(fy), Fade(fz);
    FadeInUnitInterval(fx);
    FadeInUnitInterval(fy);
    FadeInUnitInterval(fz);
    var near := Face(perm, c.aa, c.ba, c.ab, c.bb, fx, fy, fz, u, v);
    var far := Face(perm, c.aa + 1, c.ba + 1, c.ab + 1, c.bb + 1, fx, fy, fz - 1.0, u, v);
    FaceBounded(perm, c.aa, c.ba, c.ab, c.bb, fx, fy, fz, u, v);
    FaceBounded(perm, c.aa + 1, c.ba + 1, c.ab + 1, c.bb + 1, fx, fy, fz - 1.0, u, v);
    Lerp2Bounded(w, near, far);
  }

  /** One face, with x and y offsets in [0, 1), a z offset in [-1, 1] and weights in
      [0, 1], blends to a value in [-2, 2]. */
  lemma FaceBounded(perm: seq<int>, i00: int, i10: int, i01: int, i11: int,
                    fx: real, fy: real, z: real, u: real, v: real)
    requires |perm| == 512
    requires 0 <= i00 < 512 && 0 <= i10 < 512 && 0 <= i01 < 512 && 0 <= i11 < 512
    requires 0.0 <= fx < 1.0 && 0.0 <= fy < 1.0 && -1.0 <= z <= 1.0
    requires 0.0 <= u <= 1.0 && 0.0 <= v <= 1.0
    ensures -2.0 <= Face(perm, i00, i10, i01, i11, fx, fy, z, u, v) <= 2.0
  {
    var g00 := Grad(perm[i00], fx, fy, z);
    var g10 := Grad(perm[i10], fx - 1.0, fy, z);
    var g01 := Grad(perm[i01], fx, fy - 1.0, z);
    var g11 := Grad(perm[i11], fx - 1.0, fy - 1.0, z);
    GradBounded(perm[i00], fx, fy, z);
    GradBounded(perm[i10], fx - 1.0, fy, z);
    GradBounded(perm[i01], fx, fy - 1.0, z);
    GradBounded(perm[i11], fx - 1.0, fy - 1.0, z);
    Lerp2Bounded(u, g00, g10);
    Lerp2Bounded(u, g01, g11);
    Lerp2Bounded(v, Lerp(u, g00, g10), Lerp(u, g01, g11));
  }

  /** The noise generator: a 256-entry byte table p and its doubled copy perm. */
  class Perlin {
    var p: array<int>
    var perm: array<int>

    /** perm is p written out twice, and p holds bytes. */
    ghost predicate Valid()
      reads this, p, perm
    {
      && p.Length == 256 && perm.Length == 512 && p != perm
      && IsByteTable(p[..])
      && (forall k :: 0 <= k < 512 ==> perm[k] == p[Mask255(k)])
    }

    /** `new Perlin()`: the 256 `Math.random()` draws the table is built from are the
        parameter `draws` (js/perlin.js:3-17). */
    constructor (draws: seq<real>)
      requires |draws| == 256 && forall k :: 0 <= k < 256 ==> 0.0 <= draws[k] < 1.0
      ensures Valid() && fresh(p) && fresh(perm)
      ensures forall k :: 0 <= k < 256 ==> p[k] == RandomByte(draws[k])
    {
      p := new int[256];
      perm := new int[512];
      new;
      Init(draws);
    }

    /** `init()`: fill p with one random byte per slot, then copy it twice into perm
        (js/perlin.js:19-26).  Draws may repeat, so p need not be a permutation. */
    method Init(draws: seq<real>)
      requires p.Length == 256 && perm.Length == 512 && p != perm
      requires |draws| == 256 && forall k :: 0 <= k < 256 ==> 0.0 <= draws[k] < 1.0
      modifies p, perm
      ensures Valid()
      ensures forall k :: 0 <= k < 256 ==> p[k] == RandomByte(draws[k])
    {
      for i := 0 to 256
        invariant forall k :: 0 <= k < i ==> p[k] == RandomByte(draws[k])
      {
        p[i] := RandomByte(draws[i]);
      }
      for i := 0 to 512
        invariant forall k :: 0 <= k < 256 ==> p[k] == RandomByte(draws[k])
        invariant forall k :: 0 <= k < i ==> perm[k] == p[Mask255(k)]
      {
        perm[i] := p[Mask255(i)];
      }
    }

    /** `noise(x, y, z)`: reads perm and changes nothing (js/perlin.js:28-61). */
    function Noise(x: real, y: real, z: real): real
      reads this, p, perm
      requires Valid()
    {
      NoiseOf(perm[..], x, y, z)
    }

    /** Each table entry is a byte and perm repeats p: perm[i] == perm[i + 256]. */
    lemma TableShape()
      requires Valid()
      ensures IsByteTable(perm[..])
      ensures forall k :: 0 <= k < 256 ==> perm[k] == p[k] && perm[k + 256] == p[k]
    {
      forall k | 0 <= k < 512 ensures 0 <= perm[k] < 256 {
        assert perm[k] == p[Mask255(k)];
        assert p[..][Mask255(k)] == p[Mask255(k)];
      }
      forall k | 0 <= k < 256 ensures perm[k] == p[k] && perm[k + 256] == p[k] {
        assert Mask255(k) == k && Mask255(k + 256) == k;
      }
    }

    /** Noise vanishes at every lattice point: all offsets are 0, every fade weight is
        0, each lerp returns its first argument and grad(_, 0, 0, 0) == 0. */
    lemma NoiseZeroAtLattice(i: int, j: int, k: int)
      requires Valid()
      ensures Noise(i as real, j as real, k as real) == 0.0
    {
      TableShape();
      var t := perm[..];
      var c := HashCorners(t, Mask255(i), Mask255(j), Mask255(k));
      assert Frac(i as real) == 0.0 && Frac(j as real) == 0.0 && Frac(k as real) == 0.0;
      GradAtOrigin(t[c.aa]);
    }

    /** The lattice wraps every 256 cells: shifting any coordinate by 256 leaves the
        noise unchanged. */
    lemma NoisePeriodic(x: real, y: real, z: real)
      requires Valid()
      ensures Noise(x + 256.0, y, z) == Noise(x, y, z)
      ensures Noise(x, y + 256.0, z) == Noise(x, y, z)
      ensures Noise(x, y, z + 256.0) == Noise(x, y, z)
    {
      TableShape();
      ShiftFloor(x);
      ShiftFloor(y);
      ShiftFloor(z);
    }
  }

  lemma ShiftFloor(x: real)
    ensures (x + 256.0).Floor == x.Floor + 256
    ensures Mask255((x + 256.0).Floor) == Mask255(x.Floor)
    ensures Frac(x + 256.0) == Frac(x)
  {
  }
}
