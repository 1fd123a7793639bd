/** The linear fade of the trail buffer in `render` (js/game.js:439-448).

    The buffer is the RGBA byte array of the trail canvas, four bytes per pixel with
    alpha at every index congruent to 3 modulo 4.  Each frame subtracts the fade amount
    (1 - trailFade) * 255 from every alpha byte, stops at 0, and stores the result into
    the Uint8ClampedArray, which clamps to 0 .. 255 and rounds to the nearest integer,
    ties to even. */
module Trail {

  predicate IsByte(v: int) {
    0 <= v <= 255
  }

  predicate IsByteArray(s: seq<int>) {
    forall k :: 0 <= k < |s| ==> IsByte(s[k])
  }

  /** `Math.max(0, v)`. */
  function AtLeastZero(v: real): (r: real)
    ensures r >= 0.0 && r >= v && (r == v || r == 0.0)
  {
    if v < 0.0 then 0.0 else v
  }

  /** Nearest integer, ties to the even neighbour. */
  function RoundHalfEven(v: real): (n: int)
    ensures n as real - 0.5 <= v <= n as real + 0.5
    ensures v == v.Floor as real ==> n == v.Floor
  {
    var f := v.Floor;
    var r := v - f as real;
    if r < 0.5 then f
    else if r > 0.5 then f + 1
    else if f % 2 == 0 then f
    else f + 1
  }

  /** The conversion a Uint8ClampedArray applies to a number stored into it. */
  function ToUint8Clamped(v: real): (b: int)
    ensures IsByte(b)
    ensures 0.0 <= v <= 255.0 ==> b as real - 0.5 <= v <= b as real + 0.5
    ensures v <= 0.0 ==> b == 0
    ensures v >= 255.0 ==> b == 255
  {
    if v <= 0.0 then 0 else if v >= 255.0 then 255 else RoundHalfEven(v)
  }

  /** The alpha byte a stored after one fade by `fade`. */
  function FadedAlpha(a: int, fade: real): (b: int)
    ensures IsByte(b)
  {
    ToUint8Clamped(AtLeastZero(a as real - fade))
  }

  /** The buffer after one pass of the fade loop: alpha bytes faded, colour bytes kept.
      Its ensures are unfolding facts for the proofs; FadeTrail and the Decay lemmas
      state what the fade means. */
  function Decayed(s: seq<int>, fade: real): (r: seq<int>)
    ensures |r| == |s|
    ensures forall k :: 0 <= k < |s| && k % 4 != 3 ==> r[k] == s[k]
    ensures forall k :: 0 <= k < |s| && k % 4 == 3 ==> r[k] == FadedAlpha(s[k], fade)
  {
    seq(|s|, k requires 0 <= k < |s| => if k % 4 == 3 then FadedAlpha(s[k], fade) else s[k])
  }

  /** The loop `for (i = 3; i < data.length; i += 4) data[i] = Math.max(0, data[i] -
      fadeAmount)` with fadeAmount = (1 - trailFade) * 255 (js/game.js:439-446). */
  method FadeTrail(data: array<int>, trailFade: real)
    modifies data
    ensures data[..] == Decayed(old(data[..]), (1.0 - trailFade) * 255.0)
  {
    var fadeAmount := (1.0 - trailFade) * 255.0;
    ghost var before := data[..];
    var i := 3;
    while i < data.Length
      invariant 3 <= i && i % 4 == 3 && i <= data.Length + 3
      invariant forall k :: 0 <= k < data.Length && k % 4 == 3 && k < i ==>
                  data[k] == FadedAlpha(before[k], fadeAmount)
      invariant forall k :: 0 <= k < data.Length && (k % 4 != 3 || k >= i) ==> data[k] == before[k]
      decreases data.Length - i
    {
      data[i] := ToUint8Clamped(AtLeastZero(data[i] as real - fadeAmount));
      i := i + 4;
    }
    assert data[..] == Decayed(before, fadeAmount);
  }

  /** The fade keeps every entry a byte. */
  lemma DecayKeepsBytes(s: seq<int>, fade: real)
    requires IsByteArray(s)
    ensures IsByteArray(Decayed(s, fade))
  {
  }

  /** With a non-negative fade amount no alpha byte ever grows. */
  lemma DecayNeverBrightens(s: seq<int>, fade: real, k: int)
    requires IsByteArray(s) && fade >= 0.0 && 0 <= k < |s|
    ensures 0 <= Decayed(s, fade)[k] <= s[k]
  {
    if k % 4 == 3 {
      var v := AtLeastZero(s[k] as real - fade);
      assert v <= s[k] as real;
      var f := v.Floor;
      assert f <= s[k];
      if f == s[k] {
        assert v == f as real;
      }
    }
  }

  /** An integral fade amount n subtracts exactly n from each alpha byte, stopping at 0. */
  lemma DecayByWholeAmount(s: seq<int>, n: nat, k: int)
    requires IsByteArray(s) && 0 <= k < |s| && k % 4 == 3
    ensures Decayed(s, n as real)[k] == if s[k] <= n then 0 else s[k] - n
  {
    var v := AtLeastZero(s[k] as real - n as real);
    if s[k] > n {
      assert v == (s[k] - n) as real;
      assert v.Floor == s[k] - n;
    }
  }

  /** A fade amount below one half is rounded away on every store: the trail never fades
      at all (a trailFade above 1 - 0.5 / 255). */
  lemma DecayStallsBelowHalf(s: seq<int>, fade: real)
    requires IsByteArray(s) && 0.0 <= fade < 0.5
    ensures Decayed(s, fade) == s
  {
    forall k | 0 <= k < |s| && k % 4 == 3 ensures FadedAlpha(s[k], fade) == s[k] {
      var a := s[k];
      if a > 0 {
        var v := a as real - fade;
        if fade == 0.0 {
          assert v.Floor == a;
        } else {
          assert v.Floor == a - 1;
        }
      }
    }
  }

  /** The default trailFade 0.98 fades by 5.1 per frame, which the store rounds to a
      step of exactly 5: alpha a becomes a - 5, or 0 once a is at most 5. */
  lemma DefaultDecayStep(s: seq<int>, k: int)
    requires IsByteArray(s) && 0 <= k < |s| && k % 4 == 3
    ensures Decayed(s, (1.0 - 0.98) * 255.0)[k] == if s[k] <= 5 then 0 else s[k] - 5
  {
    var a := s[k];
    var v := AtLeastZero(a as real - 5.1);
    if a >= 6 {
      assert v == a as real - 5.1;
      assert v.Floor == a - 6;
    }
  }
}
