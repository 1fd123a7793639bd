/** String keys of the spatial grid.

    The grid names a cell by the template string `${gx},${gy}` and later recovers the
    coordinates with `key.split(',').map(Number)`.  This module formats integers the way
    JavaScript prints them (optional minus sign, decimal digits, no leading zeros), splits
    a string on a separator character, and parses the integer literals that the formatter
    produces.  The main fact is that a key always parses back to its own coordinates. */
module CellKeys {
  import opened Options

  predicate IsDigit(c: char) {
    '0' <= c <= '9'
  }

  predicate AllDigits(s: string) {
    forall k :: 0 <= k < |s| ==> IsDigit(s[k])
  }

  function DigitChar(d: nat): (c: char)
    requires d < 10
    ensures IsDigit(c) && c as int - '0' as int == d
  {
    "0123456789"[d]
  }

  /** Decimal text of a non-negative integer, most significant digit first. */
  function NatToString(n: nat): (s: string)
    ensures |s| > 0 && AllDigits(s)
    decreases 2 * n + 1
  {
    if n < 10 then [DigitChar(n)] else IntToString(n / 10) + [DigitChar(n % 10)]
  }

  /** JavaScript's `String(n)` for an integer (below 1e21 in magnitude). */
  function IntToString(n: int): string
    decreases if n < 0 then 2 * -n + 2 else 2 * n + 2
  {
    if n < 0 then "-" + NatToString(-n) else NatToString(n)
  }

  /** The grid key `${gx},${gy}` (js/game.js:354 and 370). */
  function Key(gx: int, gy: int): string {
    IntToString(gx) + "," + IntToString(gy)
  }

  /** Value of a string of decimal digits. */
  function DigitsValue(s: string): nat
    requires AllDigits(s)
    decreases |s|
  {
    if |s| == 0 then 0
    else DigitsValue(s[..|s| - 1]) * 10 + (s[|s| - 1] as int - '0' as int)
  }

  /** `Number(s)` restricted to integer literals: an optional minus sign followed by
      decimal digits.  Every other string stands for NaN and yields None. */
  function ParseNumber(s: string): Option<int> {
    if |s| >= 2 && s[0] == '-' && AllDigits(s[1..]) then Some(0 - DigitsValue(s[1..]))
    else if |s| >= 1 && AllDigits(s) then Some(DigitsValue(s))
    else None
  }

  /** `s.split(sep)`: the pieces between separators, in order; never empty. */
  function Split(s: string, sep: char): (parts: seq<string>)
    ensures |parts| >= 1
    decreases |s|
  {
    if |s| == 0 then [""]
    else if s[0] == sep then [""] + Split(s[1..], sep)
    else
      var rest := Split(s[1..], sep);
      [[s[0]] + rest[0]] + rest[1..]
  }

  /** `const [gridX, gridY] = key.split(',').map(Number)` (js/game.js:365); None when
      either of the first two pieces is missing or is not a number. */
  function ParseKey(key: string): Option<(int, int)> {
    var parts := Split(key, ',');
    if |parts| < 2 then None
    else
      match (ParseNumber(parts[0]), ParseNumber(parts[1]))
      case (Some(gx), Some(gy)) => Some((gx, gy))
      case _ => None
  }

  lemma {:induction false} DigitsRoundTrip(n: nat)
    ensures DigitsValue(NatToString(n)) == n
    decreases n
  {
    var s := NatToString(n);
    if n >= 10 {
      DigitsRoundTrip(n / 10);
      assert s[..|s| - 1] == NatToString(n / 10);
    }
  }

  lemma IntRoundTrip(n: int)
    ensures ParseNumber(IntToString(n)) == Some(n)
  {
    if n < 0 {
      var t := NatToString(-n);
      var s := "-" + t;
      assert s == IntToString(n);
      assert s[0] == '-' && s[1..] == t;
      DigitsRoundTrip(-n);
      assert ParseNumber(s) == Some(0 - DigitsValue(t));
    } else {
      var s := NatToString(n);
      assert s == IntToString(n);
      assert IsDigit(s[0]);
      DigitsRoundTrip(n);
      assert ParseNumber(s) == Some(DigitsValue(s));
    }
  }

  lemma {:induction false} SplitWithoutSeparator(s: string, sep: char)
    requires forall k :: 0 <= k < |s| ==> s[k] != sep
    ensures Split(s, sep) == [s]
    decreases |s|
  {
    if |s| > 0 {
      SplitWithoutSeparator(s[1..], sep);
      assert [s[0]] + s[1..] == s;
    }
  }

  lemma {:induction false} SplitAfterPrefix(u: string, w: string, sep: char)
    requires forall k :: 0 <= k < |u| ==> u[k] != sep
    ensures Split(u + w, sep) == [u + Split(w, sep)[0]] + Split(w, sep)[1..]
    decreases |u|
  {
    if |u| == 0 {
      assert u + w == w;
      assert u + Split(w, sep)[0] == Split(w, sep)[0];
      assert [Split(w, sep)[0]] + Split(w, sep)[1..] == Split(w, sep);
    } else {
      SplitAfterPrefix(u[1..], w, sep);
      assert (u + w)[1..] == u[1..] + w;
      assert [u[0]] + (u[1..] + Split(w, sep)[0]) == u + Split(w, sep)[0];
    }
  }

  lemma NoCommaInNumber(n: int)
    ensures forall k :: 0 <= k < |IntToString(n)| ==> IntToString(n)[k] != ','
  {
  }

  /** The key of a cell parses back to the cell's own coordinates, negative ones
      included: the grid scan recovers exactly the cell the rebuild filed a dot under. */
  lemma KeyRoundTrip(gx: int, gy: int)
    ensures ParseKey(Key(gx, gy)) == Some((gx, gy))
  {
    var a, b := IntToString(gx), IntToString(gy);
    NoCommaInNumber(gx);
    NoCommaInNumber(gy);
    SplitWithoutSeparator(b, ',');
    assert Split("," + b, ',') == [""] + Split(b, ',');
    SplitAfterPrefix(a, "," + b, ',');
    assert Key(gx, gy) == a + ("," + b);
    assert Split("," + b, ',')[0] == "" && Split("," + b, ',')[1..] == [b];
    assert a + "" == a;
    assert Split(Key(gx, gy), ',') == [a, b];
    IntRoundTrip(gx);
    IntRoundTrip(gy);
  }

  /** Distinct cells have distinct keys, so the key-indexed grid never merges two cells. */
  lemma KeyInjective(gx: int, gy: int, hx: int, hy: int)
    ensures Key(gx, gy) == Key(hx, hy) <==> gx == hx && gy == hy
  {
    KeyRoundTrip(gx, gy);
    KeyRoundTrip(hx, hy);
  }
}
