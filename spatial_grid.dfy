/** The spatial hash `this.grid`: a Map from cell key to the dots whose centres lie in
    that cell.  The Map is modelled as a sequence of buckets in insertion order (the
    order in which a JavaScript Map iterates), and a bucket holds the INDICES of its dots
    in `dots`: two entries refer to the same dot object exactly when their indices agree. */
module SpatialGrid {
  import opened Options
  import opened CellKeys
  import opened Physics

  datatype Bucket = Bucket(key: string, members: seq<nat>)

  /** The cell a centre lies in: (floor(x / gridSize), floor(y / gridSize)) as a key
      (js/game.js:352-354). */
  function CellOf(d: Dot, gridSize: real): string
    requires gridSize > 0.0
  {
    Key((d.x / gridSize).Floor, (d.y / gridSize).Floor)
  }

  /** The key of every dot, in the order of `dots`.  Its ensures are unfolding facts for
      the proofs; CellKeyParses and SameCell state what a key means. */
  function CellsOf(dots: seq<Dot>, gridSize: real): (cells: seq<string>)
    requires gridSize > 0.0
    ensures |cells| == |dots|
    ensures forall k :: 0 <= k < |dots| ==> cells[k] == CellOf(dots[k], gridSize)
  {
    seq(|dots|, k requires 0 <= k < |dots| => CellOf(dots[k], gridSize))
  }

  /** `grid.has(key)` / `grid.get(key)`: the position of the bucket with that key. */
  function Find(grid: seq<Bucket>, key: string): (r: Option<nat>)
    ensures r.Some? ==> r.value < |grid| && grid[r.value].key == key
    ensures r.Some? ==> forall b :: 0 <= b < r.value ==> grid[b].key != key
    ensures r.None? <==> forall b :: 0 <= b < |grid| ==> grid[b].key != key
    decreases |grid|
  {
    if |grid| == 0 then None
    else if grid[0].key == key then Some(0)
    else match Find(grid[1..], key)
      case None => None
      case Some(b) => Some(b + 1)
  }

  /** One step of the rebuild: create an empty bucket at the end of the Map when the key
      is new, then push the dot onto the key's bucket (js/game.js:356-359). */
  function Place(grid: seq<Bucket>, key: string, i: nat): seq<Bucket> {
    match Find(grid, key)
    case Some(b) => grid[b := Bucket(key, grid[b].members + [i])]
    case None => grid + [Bucket(key, [i])]
  }

  /** The grid after `clear()` and one `Place` per dot, in order, under the dot's cell
      key (js/game.js:350-360). */
  function GridOf(dots: seq<Dot>, gridSize: real): seq<Bucket>
    requires gridSize > 0.0
    decreases |dots|
  {
    if |dots| == 0 then []
    else Place(GridOf(dots[..|dots| - 1], gridSize), CellOf(dots[|dots| - 1], gridSize), |dots| - 1)
  }

  function TotalSize(grid: seq<Bucket>): nat
    decreases |grid|
  {
    if |grid| == 0 then 0 else TotalSize(grid[..|grid| - 1]) + |grid[|grid| - 1].members|
  }

  predicate Increasing(s: seq<nat>) {
    forall a, b :: 0 <= a < b < |s| ==> s[a] < s[b]
  }

  predicate KeysDistinct(grid: seq<Bucket>) {
    forall b, c :: 0 <= b < c < |grid| ==> grid[b].key != grid[c].key
  }

  /** Every bucket is non-empty and lists, in increasing order, dots of its own cell. */
  ghost predicate BucketsSound(grid: seq<Bucket>, cells: seq<string>) {
    forall b :: 0 <= b < |grid| ==>
      && |grid[b].members| > 0
      && Increasing(grid[b].members)
      && forall m :: m in grid[b].members ==> m < |cells| && cells[m] == grid[b].key
  }

  /** Buckets appear in the order of their first dot (Map insertion order). */
  predicate FirstSeenOrder(grid: seq<Bucket>)
    requires forall b :: 0 <= b < |grid| ==> |grid[b].members| > 0
  {
    forall b, c :: 0 <= b < c < |grid| ==> grid[b].members[0] < grid[c].members[0]
  }

  /** Every dot is in the bucket that `get` returns for its key. */
  ghost predicate Covers(grid: seq<Bucket>, cells: seq<string>) {
    forall i :: 0 <= i < |cells| ==>
      Find(grid, cells[i]).Some? && i in grid[Find(grid, cells[i]).value].members
  }

  /** The buckets partition the dot indices 0 .. |cells| - 1 by key: keys are distinct,
      no bucket is empty, each bucket lists exactly the dots of its cell in their order
      in `dots`, every dot is in the bucket for its key, the buckets appear in the order
      of their first dot, and the bucket sizes add up to the number of dots. */
  ghost predicate Partitions(grid: seq<Bucket>, cells: seq<string>) {
    && KeysDistinct(grid)
    && BucketsSound(grid, cells)
    && FirstSeenOrder(grid)
    && Covers(grid, cells)
    && TotalSize(grid) == |cells|
  }

  lemma FindIsOnlyMatch(grid: seq<Bucket>, key: string, b: nat)
    requires forall c, d :: 0 <= c < d < |grid| ==> grid[c].key != grid[d].key
    requires b < |grid| && grid[b].key == key
    ensures Find(grid, key) == Some(b)
  {
  }

  lemma {:induction false} TotalSizeAppend(grid: seq<Bucket>, bucket: Bucket)
    ensures TotalSize(grid + [bucket]) == TotalSize(grid) + |bucket.members|
  {
    assert (grid + [bucket])[..|grid|] == grid;
  }

  lemma {:induction false} TotalSizeGrow(grid: seq<Bucket>, b: nat, bucket: Bucket)
    requires b < |grid|
    ensures TotalSize(grid[b := bucket]) == TotalSize(grid) - |grid[b].members| + |bucket.members|
    decreases |grid|
  {
    var g := grid[b := bucket];
    if b == |grid| - 1 {
      assert g[..|g| - 1] == grid[..|grid| - 1];
    } else {
      TotalSizeGrow(grid[..|grid| - 1], b, bucket);
      assert g[..|g| - 1] == grid[..|grid| - 1][b := bucket];
    }
  }

  /** Placing the next dot keeps the grid a partition of the extended key list. */
  lemma PlacePreservesPartition(grid: seq<Bucket>, cells: seq<string>, key: string)
    requires Partitions(grid, cells)
    ensures Partitions(Place(grid, key, |cells|), cells + [key])
  {
    match Find(grid, key)
    case Some(b) => PlaceIntoBucket(grid, cells, key, b);
    case None => PlaceNewBucket(grid, cells, key);
  }

  lemma PlaceIntoBucket(grid: seq<Bucket>, cells: seq<string>, key: string, b: nat)
    requires Partitions(grid, cells)
    requires Find(grid, key) == Some(b)
    ensures Partitions(Place(grid, key, |cells|), cells + [key])
  {
    var n := |cells|;
    var bucket := Bucket(key, grid[b].members + [n]);
    var g := grid[b := bucket];
    assert Place(grid, key, n) == g;
    TotalSizeGrow(grid, b, bucket);
    IntoBucketOrder(grid, key, b, n);
    IntoBucketSound(grid, cells, key, b);
    IntoBucketCovers(grid, cells, key, b);
  }

  lemma IntoBucketOrder(grid: seq<Bucket>, key: string, b: nat, n: nat)
    requires KeysDistinct(grid) && b < |grid| && grid[b].key == key
    requires forall c :: 0 <= c < |grid| ==> |grid[c].members| > 0
    requires FirstSeenOrder(grid)
    ensures KeysDistinct(grid[b := Bucket(key, grid[b].members + [n])])
    ensures FirstSeenOrder(grid[b := Bucket(key, grid[b].members + [n])])
  {
    var g := grid[b := Bucket(key, grid[b].members + [n])];
    assert forall c :: 0 <= c < |g| ==> g[c].key == grid[c].key;
    assert forall c :: 0 <= c < |g| ==> g[c].members[0] == grid[c].members[0];
  }

  lemma IntoBucketSound(grid: seq<Bucket>, cells: seq<string>, key: string, b: nat)
    requires KeysDistinct(grid) && BucketsSound(grid, cells)
    requires b < |grid| && grid[b].key == key
    ensures BucketsSound(grid[b := Bucket(key, grid[b].members + [|cells|])], cells + [key])
  {
    var n := |cells|;
    var g := grid[b := Bucket(key, grid[b].members + [n])];
    forall c | 0 <= c < |g|
      ensures |g[c].members| > 0 && Increasing(g[c].members)
      ensures forall m :: m in g[c].members ==> m < n + 1 && (cells + [key])[m] == g[c].key
    {
      if c == b {
        var ms := grid[b].members;
        assert forall a :: 0 <= a < |ms| ==> ms[a] in ms;
        assert forall m :: m in ms + [n] ==> m in ms || m == n;
      }
    }
  }

  lemma IntoBucketCovers(grid: seq<Bucket>, cells: seq<string>, key: string, b: nat)
    requires KeysDistinct(grid) && Covers(grid, cells)
    requires b < |grid| && grid[b].key == key
    ensures Covers(grid[b := Bucket(key, grid[b].members + [|cells|])], cells + [key])
  {
    var n := |cells|;
    var cells' := cells + [key];
    var g := grid[b := Bucket(key, grid[b].members + [n])];
    assert KeysDistinct(g) by {
      assert forall c :: 0 <= c < |g| ==> g[c].key == grid[c].key;
    }
    forall i | 0 <= i < |cells'|
      ensures Find(g, cells'[i]).Some? && i in g[Find(g, cells'[i]).value].members
    {
      if i < n {
        var c := Find(grid, cells[i]).value;
        FindIsOnlyMatch(g, cells'[i], c);
      } else {
        FindIsOnlyMatch(g, key, b);
      }
    }
  }

  lemma PlaceNewBucket(grid: seq<Bucket>, cells: seq<string>, key: string)
    requires Partitions(grid, cells)
    requires Find(grid, key) == None
    ensures Partitions(Place(grid, key, |cells|), cells + [key])
  {
    var n := |cells|;
    var bucket := Bucket(key, [n]);
    var g := grid + [bucket];
    assert Place(grid, key, n) == g;
    TotalSizeAppend(grid, bucket);
    NewBucketSound(grid, cells, key);
    NewBucketFirstSeen(grid, cells, key);
    NewBucketCovers(grid, cells, key);
  }

  lemma NewBucketSound(grid: seq<Bucket>, cells: seq<string>, key: string)
    requires BucketsSound(grid, cells)
    ensures BucketsSound(grid + [Bucket(key, [|cells|])], cells + [key])
  {
    var n := |cells|;
    var cells' := cells + [key];
    var g := grid + [Bucket(key, [n])];
    forall c | 0 <= c < |g|
      ensures |g[c].members| > 0 && Increasing(g[c].members)
      ensures forall m :: m in g[c].members ==> m < n + 1 && cells'[m] == g[c].key
    {
      if c < |grid| {
        assert g[c] == grid[c];
        assert forall m :: 0 <= m < n ==> cells'[m] == cells[m];
      }
    }
  }

  lemma NewBucketFirstSeen(grid: seq<Bucket>, cells: seq<string>, key: string)
    requires BucketsSound(grid, cells) && FirstSeenOrder(grid)
    ensures FirstSeenOrder(grid + [Bucket(key, [|cells|])])
  {
    var g := grid + [Bucket(key, [|cells|])];
    forall c | 0 <= c < |grid| ensures g[c].members[0] < |cells| {
      assert grid[c].members[0] in grid[c].members;
    }
  }

  lemma NewBucketCovers(grid: seq<Bucket>, cells: seq<string>, key: string)
    requires KeysDistinct(grid) && Covers(grid, cells)
    requires Find(grid, key) == None
    ensures Covers(grid + [Bucket(key, [|cells|])], cells + [key])
  {
    var n := |cells|;
    var cells' := cells + [key];
    var g := grid + [Bucket(key, [n])];
    assert KeysDistinct(g);
    forall i | 0 <= i < |cells'|
      ensures Find(g, cells'[i]).Some? && i in g[Find(g, cells'[i]).value].members
    {
      if i < n {
        var c := Find(grid, cells[i]).value;
        FindIsOnlyMatch(g, cells'[i], c);
      } else {
        FindIsOnlyMatch(g, key, |grid|);
      }
    }
  }

  /** The rebuild partitions the dots by cell (js/game.js:350-360). */
  lemma {:induction false} GridOfPartitions(dots: seq<Dot>, gridSize: real)
    requires gridSize > 0.0
    ensures Partitions(GridOf(dots, gridSize), CellsOf(dots, gridSize))
    decreases |dots|
  {
    if |dots| > 0 {
      var init := dots[..|dots| - 1];
      var cells, last := CellsOf(init, gridSize), CellOf(dots[|dots| - 1], gridSize);
      CellsOfSnoc(dots, gridSize);
      assert GridOf(dots, gridSize) == Place(GridOf(init, gridSize), last, |cells|);
      GridOfPartitions(init, gridSize);
      PlacePreservesPartition(GridOf(init, gridSize), cells, last);
    }
  }

  lemma CellsOfSnoc(dots: seq<Dot>, gridSize: real)
    requires gridSize > 0.0 && |dots| > 0
    ensures CellsOf(dots[..|dots| - 1], gridSize) + [CellOf(dots[|dots| - 1], gridSize)]
            == CellsOf(dots, gridSize)
  {
  }

  /** The scan's `split(',').map(Number)` recovers the cell a dot was filed under. */
  lemma CellKeyParses(d: Dot, gs: real)
    requires gs > 0.0
    ensures ParseKey(CellOf(d, gs)) == Some(((d.x / gs).Floor, (d.y / gs).Floor))
  {
    KeyRoundTrip((d.x / gs).Floor, (d.y / gs).Floor);
  }

  /** Two dots are filed under the same key exactly when they lie in the same cell. */
  lemma SameCell(d1: Dot, d2: Dot, gs: real)
    requires gs > 0.0
    ensures CellOf(d1, gs) == CellOf(d2, gs)
            <==> (d1.x / gs).Floor == (d2.x / gs).Floor && (d1.y / gs).Floor == (d2.y / gs).Floor
  {
    KeyInjective((d1.x / gs).Floor, (d1.y / gs).Floor, (d2.x / gs).Floor, (d2.y / gs).Floor);
  }

  /** Each dot is in exactly one bucket, the one whose key is the dot's cell. */
  lemma EachDotInOneBucket(grid: seq<Bucket>, cells: seq<string>, i: nat, b: nat)
    requires Partitions(grid, cells)
    requires i < |cells| && b < |grid|
    ensures i in grid[b].members <==> grid[b].key == cells[i]
  {
    if grid[b].key == cells[i] {
      FindIsOnlyMatch(grid, cells[i], b);
    }
  }

  /** The nine keys the neighbour scan looks up around cell (gx, gy), in scan order:
      x offset outer, y offset inner, each from -1 to 1 (js/game.js:368-371). */
  function Neighbourhood(gx: int, gy: int): (keys: seq<string>)
    ensures |keys| == 9 && keys[4] == Key(gx, gy)
  {
    seq(9, k requires 0 <= k < 9 => Key(gx + k / 3 - 1, gy + k % 3 - 1))
  }

  lemma UnitGap(w: real, d: real, gs: real)
    requires gs > 0.0 && -gs < d < gs && w * gs == d
    ensures -1.0 < w < 1.0
  {
  }

  /** Coordinates less than one cell apart fall in the same or in adjacent cells. */
  lemma NearbyFloors(a: real, b: real, gs: real)
    requires gs > 0.0 && -gs < a - b < gs
    ensures -1 <= (a / gs).Floor - (b / gs).Floor <= 1
  {
    var u, v := a / gs, b / gs;
    assert u * gs == a && v * gs == b;
    assert (u - v) * gs == u * gs - v * gs;
    UnitGap(u - v, a - b, gs);
  }

  /** Two dots less than gridSize apart on each axis when the grid is built have cells
      in each other's 3 x 3 neighbourhood, so the scan looks at the pair. */
  lemma CloseDotsAreNeighbours(d1: Dot, d2: Dot, gs: real)
    requires gs > 0.0
    requires -gs < d2.x - d1.x < gs && -gs < d2.y - d1.y < gs
    ensures CellOf(d2, gs) in Neighbourhood((d1.x / gs).Floor, (d1.y / gs).Floor)
  {
    var gx, gy := (d1.x / gs).Floor, (d1.y / gs).Floor;
    NearbyFloors(d2.x, d1.x, gs);
    NearbyFloors(d2.y, d1.y, gs);
    var ox, oy := (d2.x / gs).Floor - gx, (d2.y / gs).Floor - gy;
    assert CellOf(d2, gs) == Key(gx + ox, gy + oy);
    NeighbourAt(gx, gy, ox, oy);
  }

  /** Offset (ox, oy) is entry 3 * (ox + 1) + (oy + 1) of the scan. */
  lemma NeighbourAt(gx: int, gy: int, ox: int, oy: int)
    requires -1 <= ox <= 1 && -1 <= oy <= 1
    ensures Neighbourhood(gx, gy)[(ox + 1) * 3 + (oy + 1)] == Key(gx + ox, gy + oy)
    ensures Key(gx + ox, gy + oy) in Neighbourhood(gx, gy)
  {
    var k := (ox + 1) * 3 + (oy + 1);
    assert k / 3 == ox + 1 && k % 3 == oy + 1;
    assert Neighbourhood(gx, gy)[k] == Key(gx + ox, gy + oy);
  }

  /** Every index a bucket holds names one of n dots. */
  predicate GridInRange(grid: seq<Bucket>, n: nat) {
    forall b, m :: 0 <= b < |grid| && m in grid[b].members ==> m < n
  }

  /** Both dots of every pair are among the first n. */
  predicate PairsIn(pairs: seq<(nat, nat)>, n: nat) {
    forall p :: p in pairs ==> p.0 < n && p.1 < n
  }

  lemma PairsInAppend(p: seq<(nat, nat)>, q: seq<(nat, nat)>, n: nat)
    requires PairsIn(p, n) && PairsIn(q, n)
    ensures PairsIn(p + q, n)
  {
  }

  lemma PairsInSnoc(pairs: seq<(nat, nat)>, p: (nat, nat), n: nat)
    requires PairsIn(pairs, n) && p.0 < n && p.1 < n
    ensures PairsIn(pairs + [p], n)
  {
  }

  /** Dot a against every entry of ds, in order: one pass of the inner loop. */
  function Row(a: nat, ds: seq<nat>): (pairs: seq<(nat, nat)>)
    ensures |pairs| == |ds|
    ensures forall k :: 0 <= k < |ds| ==> pairs[k] == (a, ds[k])
    ensures forall p :: p in pairs ==> p.0 == a && p.1 in ds
  {
    seq(|ds|, k requires 0 <= k < |ds| => (a, ds[k]))
  }

  /** Before the inner loop of `checkCollisionsBetween` runs, it has added no pair. */
  lemma RowStart(done: seq<(nat, nat)>, a: nat, ds: seq<nat>)
    ensures done + Row(a, ds[..0]) == done
  {
    assert Row(a, ds[..0]) == [];
  }

  /** One more step of the inner loop adds one pair. */
  lemma RowStep(done: seq<(nat, nat)>, a: nat, ds: seq<nat>, j: nat)
    requires j < |ds|
    ensures (done + Row(a, ds[..j])) + [(a, ds[j])] == done + Row(a, ds[..j + 1])
  {
    assert Row(a, ds[..j + 1]) == Row(a, ds[..j]) + [(a, ds[j])];
  }

  /** The pairs `checkCollisionsBetween(dots1, dots2)` visits, in visiting order: dots1
      in the outer loop, dots2 in the inner one (js/game.js:380-382). */
  function BetweenPairs(ds1: seq<nat>, ds2: seq<nat>): (pairs: seq<(nat, nat)>)
    ensures forall p :: p in pairs ==> p.0 in ds1 && p.1 in ds2
    decreases |ds1|
  {
    if |ds1| == 0 then []
    else BetweenPairs(ds1[..|ds1| - 1], ds2) + Row(ds1[|ds1| - 1], ds2)
  }

  /** The pairs visited for one neighbour key: none when no bucket has the key,
      otherwise the bucket's members against the found bucket's (js/game.js:371-374). */
  function KeyPairs(grid: seq<Bucket>, members: seq<nat>, key: string): seq<(nat, nat)> {
    match Find(grid, key)
    case None => []
    case Some(f) => BetweenPairs(members, grid[f].members)
  }

  /** The pairs visited for a list of neighbour keys, key by key. */
  function CellPairs(grid: seq<Bucket>, members: seq<nat>, keys: seq<string>): seq<(nat, nat)>
    decreases |keys|
  {
    if |keys| == 0 then []
    else CellPairs(grid, members, keys[..|keys| - 1]) + KeyPairs(grid, members, keys[|keys| - 1])
  }

  /** The pairs visited for bucket b: its key parsed back into (gx, gy), then the nine
      neighbour keys in scan order (js/game.js:364-376). */
  function BucketPairs(grid: seq<Bucket>, b: nat): seq<(nat, nat)>
    requires b < |grid|
  {
    match ParseKey(grid[b].key)
    case None => []
    case Some((gx, gy)) => CellPairs(grid, grid[b].members, Neighbourhood(gx, gy))
  }

  /** The pairs of every bucket's pass, in Map order. */
  function Passes(grid: seq<Bucket>): (passes: seq<seq<(nat, nat)>>)
    ensures |passes| == |grid|
  {
    seq(|grid|, b requires 0 <= b < |grid| => BucketPairs(grid, b))
  }

  /** The first n pieces, one after another. */
  function Joined(pieces: seq<seq<(nat, nat)>>, n: nat): seq<(nat, nat)>
    requires n <= |pieces|
    decreases n
  {
    if n == 0 then [] else Joined(pieces, n - 1) + pieces[n - 1]
  }

  /** Every pair `checkCollisionsWithGrid` visits over the first n buckets, in Map
      order (js/game.js:363-377). */
  function ScanPairs(grid: seq<Bucket>, n: nat): seq<(nat, nat)>
    requires n <= |grid|
  {
    Joined(Passes(grid), n)
  }

  /** A pair of piece b is among the first n pieces joined, once n is past b. */
  lemma {:induction false} JoinedReach(pieces: seq<seq<(nat, nat)>>, n: nat, b: nat, p: (nat, nat))
    requires b < n <= |pieces| && p in pieces[b]
    ensures p in Joined(pieces, n)
    decreases n
  {
    if b < n - 1 {
      JoinedReach(pieces, n - 1, b, p);
    }
  }

  /** Every pair of the first n pieces joined comes from one of them. */
  lemma {:induction false} JoinedFrom(pieces: seq<seq<(nat, nat)>>, n: nat, p: (nat, nat)) returns (b: nat)
    requires n <= |pieces| && p in Joined(pieces, n)
    ensures b < n && p in pieces[b]
    decreases n
  {
    if p in Joined(pieces, n - 1) {
      b := JoinedFrom(pieces, n - 1, p);
    } else {
      b := n - 1;
    }
  }

  /** One more step of the outer loop adds a whole row. */
  lemma BetweenStep(ds1: seq<nat>, ds2: seq<nat>, i: nat)
    requires i < |ds1|
    ensures BetweenPairs(ds1[..i + 1], ds2) == BetweenPairs(ds1[..i], ds2) + Row(ds1[i], ds2[..|ds2|])
  {
    assert ds1[..i + 1][..i] == ds1[..i];
    assert ds2[..|ds2|] == ds2;
  }

  /** Before the neighbour loops run, they have added no pair. */
  lemma CellStart(grid: seq<Bucket>, members: seq<nat>, keys: seq<string>)
    ensures CellPairs(grid, members, keys[..0]) == []
  {
  }

  /** One more neighbour key adds that key's pairs, none when no bucket has it. */
  lemma CellStep(grid: seq<Bucket>, members: seq<nat>, keys: seq<string>, k: nat, n: nat)
    requires k < |keys| && GridInRange(grid, n) && forall m :: m in members ==> m < n
    ensures PairsIn(CellPairs(grid, members, keys[..k]), n)
    ensures CellPairs(grid, members, keys[..k + 1])
            == CellPairs(grid, members, keys[..k]) + KeyPairs(grid, members, keys[k])
    ensures Find(grid, keys[k]).None? ==>
              CellPairs(grid, members, keys[..k + 1]) == CellPairs(grid, members, keys[..k])
    ensures PairsIn(CellPairs(grid, members, keys[..k + 1]), n)
  {
    assert keys[..k + 1][..k] == keys[..k];
    var extra := KeyPairs(grid, members, keys[k]);
    if Find(grid, keys[k]).None? {
      assert extra == [];
    }
    CellPairsIn(grid, members, keys[..k], n);
    CellPairsIn(grid, members, keys[..k + 1], n);
  }

  /** The pairs for a list of keys name only dots the grid and the members name. */
  lemma {:induction false} CellPairsIn(grid: seq<Bucket>, members: seq<nat>, keys: seq<string>, n: nat)
    requires GridInRange(grid, n) && forall m :: m in members ==> m < n
    ensures PairsIn(CellPairs(grid, members, keys), n)
    decreases |keys|
  {
    if |keys| > 0 {
      CellPairsIn(grid, members, keys[..|keys| - 1], n);
      match Find(grid, keys[|keys| - 1])
      case None =>
      case Some(f) =>
        assert forall m :: m in grid[f].members ==> m < n;
    }
  }

  /** The scan names only dots the grid names. */
  lemma ScanPairsIn(grid: seq<Bucket>, k: nat, n: nat)
    requires k <= |grid| && GridInRange(grid, n)
    ensures PairsIn(ScanPairs(grid, k), n)
  {
    forall p | p in ScanPairs(grid, k) ensures p.0 < n && p.1 < n {
      var b := JoinedFrom(Passes(grid), k, p);
      BucketPairsIn(grid, b, n);
    }
  }

  lemma BucketPairsIn(grid: seq<Bucket>, b: nat, n: nat)
    requires b < |grid| && GridInRange(grid, n)
    ensures PairsIn(BucketPairs(grid, b), n)
  {
    match ParseKey(grid[b].key)
    case None =>
    case Some((gx, gy)) =>
      assert forall m :: m in grid[b].members ==> m < n;
      CellPairsIn(grid, grid[b].members, Neighbourhood(gx, gy), n);
  }

  /** After the nine neighbour keys of bucket b, the scan has covered b. */
  lemma BucketCells(grid: seq<Bucket>, b: nat, gx: int, gy: int)
    requires b < |grid| && ParseKey(grid[b].key) == Some((gx, gy))
    ensures CellPairs(grid, grid[b].members, Neighbourhood(gx, gy)[..9]) == BucketPairs(grid, b)
  {
    assert Neighbourhood(gx, gy)[..9] == Neighbourhood(gx, gy);
  }

  /** One more bucket adds that bucket's pairs. */
  lemma ScanStep(grid: seq<Bucket>, b: nat, n: nat)
    requires b < |grid| && GridInRange(grid, n)
    ensures ScanPairs(grid, b + 1) == ScanPairs(grid, b) + BucketPairs(grid, b)
    ensures PairsIn(ScanPairs(grid, b), n) && PairsIn(BucketPairs(grid, b), n)
  {
    assert Passes(grid)[b] == BucketPairs(grid, b);
    ScanPairsIn(grid, b, n);
    BucketPairsIn(grid, b, n);
  }

  /** A pair is visited by `checkCollisionsBetween(ds1, ds2)` exactly when its first dot
      is in ds1 and its second in ds2. */
  lemma {:induction false} BetweenPairsMembers(ds1: seq<nat>, ds2: seq<nat>, a: nat, c: nat)
    ensures (a, c) in BetweenPairs(ds1, ds2) <==> a in ds1 && c in ds2
    decreases |ds1|
  {
    if |ds1| > 0 {
      var init, last := ds1[..|ds1| - 1], ds1[|ds1| - 1];
      BetweenPairsMembers(init, ds2, a, c);
      assert ds1 == init + [last];
      if a == last && c in ds2 {
        var k :| 0 <= k < |ds2| && ds2[k] == c;
        assert Row(last, ds2)[k] == (a, c);
      }
    }
  }

  /** The pairs of any key in the list whose bucket holds c, with a in members, are
      among the visited pairs. */
  lemma {:induction false} CellPairsReach(grid: seq<Bucket>, members: seq<nat>, keys: seq<string>,
                                          k: nat, a: nat, c: nat)
    requires k < |keys| && Find(grid, keys[k]).Some?
    requires a in members && c in grid[Find(grid, keys[k]).value].members
    ensures (a, c) in CellPairs(grid, members, keys)
    decreases |keys|
  {
    var init := keys[..|keys| - 1];
    if k < |keys| - 1 {
      assert init[k] == keys[k];
      CellPairsReach(grid, members, init, k, a, c);
    } else {
      BetweenPairsMembers(members, grid[Find(grid, keys[k]).value].members, a, c);
    }
  }

  /** Every pair of bucket b is visited by a scan that has passed b. */
  lemma ScanPairsReach(grid: seq<Bucket>, n: nat, b: nat, p: (nat, nat))
    requires b < n <= |grid| && p in BucketPairs(grid, b)
    ensures p in ScanPairs(grid, n)
  {
    JoinedReach(Passes(grid), n, b, p);
  }

  /** Dot i is visited against dot j by the scan of a rebuilt grid exactly when j's cell
      is one of the nine around i's, all cells taken from the positions the grid was
      built from (js/game.js:345-377). */
  lemma ScanVisitsNeighbours(dots: seq<Dot>, gs: real, i: nat, j: nat)
    requires gs > 0.0 && i < |dots| && j < |dots|
    ensures var grid := GridOf(dots, gs);
            (i, j) in ScanPairs(grid, |grid|)
            <==> CellOf(dots[j], gs) in Neighbourhood((dots[i].x / gs).Floor, (dots[i].y / gs).Floor)
  {
    var grid, cells := GridOf(dots, gs), CellsOf(dots, gs);
    var gx, gy := (dots[i].x / gs).Floor, (dots[i].y / gs).Floor;
    var nb := Neighbourhood(gx, gy);
    GridOfPartitions(dots, gs);
    if cells[j] in nb {
      var b := Find(grid, cells[i]).value;
      KeyRoundTrip(gx, gy);
      var k :| 0 <= k < 9 && nb[k] == cells[j];
      CellPairsReach(grid, grid[b].members, nb, k, i, j);
      ScanPairsReach(grid, |grid|, b, (i, j));
    }
    if (i, j) in ScanPairs(grid, |grid|) {
      ScanPairsFrom(grid, cells, |grid|, i, j);
      KeyRoundTrip(gx, gy);
    }
  }

  /** Two dots less than gridSize apart on each axis at the rebuild are visited as the
      pair (i, j) by the scan of that grid, in both orders. */
  lemma ScanReachesClosePairs(dots: seq<Dot>, gs: real, i: nat, j: nat)
    requires gs > 0.0 && i < |dots| && j < |dots|
    requires -gs < dots[j].x - dots[i].x < gs && -gs < dots[j].y - dots[i].y < gs
    ensures var grid := GridOf(dots, gs);
            (i, j) in ScanPairs(grid, |grid|) && (j, i) in ScanPairs(grid, |grid|)
  {
    CloseDotsAreNeighbours(dots[i], dots[j], gs);
    CloseDotsAreNeighbours(dots[j], dots[i], gs);
    ScanVisitsNeighbours(dots, gs, i, j);
    ScanVisitsNeighbours(dots, gs, j, i);
  }

  /** A visited pair (i, j) has j's cell among the nine keys around i's parsed cell. */
  lemma ScanPairsFrom(grid: seq<Bucket>, cells: seq<string>, n: nat, i: nat, j: nat)
    requires Partitions(grid, cells) && n <= |grid| && (i, j) in ScanPairs(grid, n)
    ensures i < |cells| && j < |cells|
    ensures exists gx, gy :: ParseKey(cells[i]) == Some((gx, gy)) && cells[j] in Neighbourhood(gx, gy)
  {
    var b := JoinedFrom(Passes(grid), n, (i, j));
    match ParseKey(grid[b].key)
    case Some((gx, gy)) =>
      CellPairsFrom(grid, cells, grid[b].members, Neighbourhood(gx, gy), i, j);
      assert cells[i] == grid[b].key;
  }

  /** A pair of the key list has its second dot in the cell of one of the keys. */
  lemma {:induction false} CellPairsFrom(grid: seq<Bucket>, cells: seq<string>, members: seq<nat>,
                                         keys: seq<string>, i: nat, j: nat)
    requires Partitions(grid, cells) && (i, j) in CellPairs(grid, members, keys)
    ensures i in members && j < |cells| && cells[j] in keys
    decreases |keys|
  {
    var init, last := keys[..|keys| - 1], keys[|keys| - 1];
    if (i, j) in CellPairs(grid, members, init) {
      CellPairsFrom(grid, cells, members, init, i, j);
    } else {
      var f := Find(grid, last).value;
      BetweenPairsMembers(members, grid[f].members, i, j);
    }
  }
}
