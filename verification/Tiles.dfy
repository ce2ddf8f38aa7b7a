/**
 The map behind a slot preview: which tiles are fetched, where they are drawn, and where the waypoints go.
 Coordinates are reals; the projection of latitudes is a parameter.
 */
module Tiles {
  import opened Wrappers

  const TILE := 256

  // ---- One axis ---------------------------------------------------------------------------

  /** Conversion to an integer drops the fraction, towards zero. */
  function Trunc(x: real): int {
    if x >= 0.0 then x.Floor else -((-x).Floor)
  }

  /** The first tile needed for a canvas that begins at this world coordinate. */
  function FirstTile(left: real): int {
    (left / 256.0).Floor
  }

  /** The last. */
  function LastTile(left: real, size: nat): int {
    ((left + size as real - 1.0) / 256.0).Floor
  }

  /** Where tile t belongs on the canvas, and the pixel at which it is drawn. */
  function Offset(t: int, left: real): real {
    (t * TILE) as real - left
  }

  function Place(t: int, left: real): int {
    Trunc(Offset(t, left))
  }

  lemma TruncNear(x: real)
    ensures x >= 0.0 ==> x - 1.0 < Trunc(x) as real <= x
    ensures x < 0.0 ==> x <= Trunc(x) as real < x + 1.0
  {
  }

  lemma FloorOfQuotient(x: real)
    ensures var t := (x / 256.0).Floor; (t * TILE) as real <= x < ((t + 1) * TILE) as real
  {
    var t := (x / 256.0).Floor;
    assert t as real <= x / 256.0 < t as real + 1.0;
    assert x / 256.0 * 256.0 == x;
  }

  /** A tile is drawn less than a pixel away from where it belongs. */
  lemma PlacedWithinAPixel(t: int, left: real)
    ensures -1.0 < Place(t, left) as real - Offset(t, left) < 1.0
  {
    TruncNear(Offset(t, left));
  }

  /** Neighbours touch, or overlap by the one column where the sign changes. */
  lemma NeighboursTouch(t: int, left: real)
    ensures 255 <= Place(t + 1, left) - Place(t, left) <= 256
    ensures Place(t + 1, left) - Place(t, left) == 255 ==>
              Offset(t, left) < 0.0 <= Offset(t + 1, left) && left != left.Floor as real
  {
    assert Offset(t + 1, left) == Offset(t, left) + 256.0;
    var x := Offset(t, left);
    if x >= 0.0 {
      ShiftedFloor(x);
    } else if x + 256.0 < 0.0 {
      ShiftedFloor(-x - 256.0);
    } else {
      CrossingZero(x);
      if left == left.Floor as real {
        var whole := t * TILE - left.Floor;
        assert x == whole as real;
        assert Trunc(x) == whole && Trunc(x + 256.0) == whole + 256;
      }
    }
  }

  lemma ShiftedFloor(x: real)
    ensures (x + 256.0).Floor == x.Floor + 256
  {
    var f := x.Floor;
    assert f as real <= x < f as real + 1.0;
    assert (f + 256) as real <= x + 256.0 < (f + 257) as real;
  }

  lemma CrossingZero(x: real)
    requires -256.0 <= x < 0.0
    ensures 255 <= Trunc(x + 256.0) - Trunc(x) <= 256
  {
    TruncNear(x);
    TruncNear(x + 256.0);
  }

  /** The first tile reaches the canvas from its edge or before, and every tile drawn shows on it. */
  lemma RangeMeetsCanvas(left: real, size: nat)
    requires size > 0
    ensures var t0, t1 := FirstTile(left), LastTile(left, size);
            t0 <= t1 && Place(t0, left) <= 0 < Place(t0, left) + TILE && Place(t1, left) <= size - 1
  {
    var t0, t1 := FirstTile(left), LastTile(left, size);
    FloorOfQuotient(left);
    FloorOfQuotient(left + size as real - 1.0);
    TruncNear(Offset(t0, left));
    TruncNear(Offset(t1, left));
    assert Offset(t1, left) <= (size - 1) as real;
    assert (t0 * TILE) as real < ((t1 + 1) * TILE) as real;
  }

  /** Where the drawn tiles end: always past the last column but one, and past the last unless the range stops short. */
  lemma RangeEnds(left: real, size: nat)
    requires size > 0
    ensures var end := Place(LastTile(left, size), left) + TILE;
            var dx := Offset(LastTile(left, size), left);
            end >= size - 1 && (end >= size <==> !(dx >= 0.0 && dx + 256.0 < size as real))
  {
    var t1 := LastTile(left, size);
    var dx := Offset(t1, left);
    FloorOfQuotient(left + size as real - 1.0);
    assert dx + 256.0 > (size - 1) as real;
    TruncNear(dx);
    if dx >= 0.0 {
      assert (dx.Floor + 256) as real > dx - 1.0 + 256.0;
    }
  }

  predicate Shows(t: int, left: real, column: int) {
    Place(t, left) <= column < Place(t, left) + TILE
  }

  /** From tile a to tile b there is no gap. */
  lemma {:induction false} NoGap(a: int, b: int, left: real, column: int) returns (t: int)
    requires a <= b && Place(a, left) <= column < Place(b, left) + TILE
    ensures a <= t <= b && Shows(t, left, column)
    decreases b - a
  {
    hide Place;
    if column < Place(a, left) + TILE {
      t := a;
    } else {
      NeighboursTouch(a, left);
      t := NoGap(a + 1, b, left, column);
    }
  }

  /** The range's last column is bare: its tiles end one column short of the canvas. */
  predicate LastBare(left: real, size: nat) {
    var dx := Offset(LastTile(left, size), left);
    dx >= 0.0 && dx + 256.0 < size as real
  }

  /** A column is covered by some tile of the range, unless it is the last one and bare. */
  lemma CoveredColumns(left: real, size: nat, column: nat)
    requires column < size
    ensures (exists t :: FirstTile(left) <= t <= LastTile(left, size) && Shows(t, left, column))
              <==> !(column == size - 1 && LastBare(left, size))
  {
    hide Place;
    RangeMeetsCanvas(left, size);
    RangeEnds(left, size);
    var t0, t1 := FirstTile(left), LastTile(left, size);
    if column < Place(t1, left) + TILE {
      var t := NoGap(t0, t1, left, column);
      assert Shows(t, left, column);
    } else {
      forall t | t0 <= t <= t1
        ensures !Shows(t, left, column)
      {
        PlacesGrow(t, t1, left);
      }
    }
  }

  lemma {:induction false} PlacesGrow(a: int, b: int, left: real)
    requires a <= b
    ensures Place(a, left) <= Place(b, left)
    decreases b - a
  {
    hide Place;
    if a < b {
      NeighboursTouch(a, left);
      PlacesGrow(a + 1, b, left);
    }
  }

  // ---- The projection ---------------------------------------------------------------------

  datatype Waypoint = Waypoint(lat: real, lng: real)

  datatype Box = Box(minLat: real, maxLat: real, minLng: real, maxLng: real)

  const MIN_ZOOM := 1
  const MAX_ZOOM := 19

  function Pow2(z: nat): (n: real)
    ensures n >= 1.0
  {
    if z == 0 then 1.0 else 2.0 * Pow2(z - 1)
  }

  /** World coordinates; how latitude maps to a fraction of the world is not modelled further. */
  function WorldX(lng: real, z: nat): real {
    (lng + 180.0) / 360.0 * 256.0 * Pow2(z)
  }

  function WorldY(north: real -> real, lat: real, z: nat): real {
    north(lat) * 256.0 * Pow2(z)
  }

  predicate Within(b: Box, p: Waypoint) {
    b.minLat <= p.lat <= b.maxLat && b.minLng <= p.lng <= b.maxLng
  }

  /** The smallest box around the waypoints, for coordinates in the usual ranges. */
  ghost predicate Encloses(b: Box, pts: seq<Waypoint>) {
    && (forall k :: 0 <= k < |pts| ==> Within(b, pts[k]))
    && (pts != [] && (forall k :: 0 <= k < |pts| ==> InRange(pts[k])) ==>
          && (exists k :: 0 <= k < |pts| && pts[k].lat == b.minLat)
          && (exists k :: 0 <= k < |pts| && pts[k].lat == b.maxLat)
          && (exists k :: 0 <= k < |pts| && pts[k].lng == b.minLng)
          && (exists k :: 0 <= k < |pts| && pts[k].lng == b.maxLng))
  }

  predicate InRange(p: Waypoint) {
    -90.0 <= p.lat <= 90.0 && -180.0 <= p.lng <= 180.0
  }

  method BoundingBox(pts: seq<Waypoint>) returns (b: Box)
    ensures Encloses(b, pts)
  {
    var minLat, minLng, maxLat, maxLng := 90.0, 180.0, -90.0, -180.0;
    for i := 0 to |pts|
      invariant i == 0 ==> minLat == 90.0 && minLng == 180.0 && maxLat == -90.0 && maxLng == -180.0
      invariant minLat <= 90.0 && minLng <= 180.0 && maxLat >= -90.0 && maxLng >= -180.0
      invariant forall k :: 0 <= k < i ==> Within(Box(minLat, maxLat, minLng, maxLng), pts[k])
      invariant minLat == 90.0 || exists k :: 0 <= k < i && pts[k].lat == minLat
      invariant maxLat == -90.0 || exists k :: 0 <= k < i && pts[k].lat == maxLat
      invariant minLng == 180.0 || exists k :: 0 <= k < i && pts[k].lng == minLng
      invariant maxLng == -180.0 || exists k :: 0 <= k < i && pts[k].lng == maxLng
    {
      var p := pts[i];
      if p.lat < minLat { minLat := p.lat; }
      if p.lat > maxLat { maxLat := p.lat; }
      if p.lng < minLng { minLng := p.lng; }
      if p.lng > maxLng { maxLng := p.lng; }
    }
    b := Box(minLat, maxLat, minLng, maxLng);
    if pts != [] && forall k :: 0 <= k < |pts| ==> InRange(pts[k]) {
      assert InRange(pts[0]);
      assert Within(b, pts[0]);
      assert minLat == 90.0 ==> pts[0].lat == minLat;
      assert maxLat == -90.0 ==> pts[0].lat == maxLat;
      assert minLng == 180.0 ==> pts[0].lng == minLng;
      assert maxLng == -180.0 ==> pts[0].lng == maxLng;
    }
  }

  /** The box with 15 percent more on each side, as if it were 0.0005 degrees wide when it has no width. */
  function Padded(b: Box): Box {
    var dLat := if b.maxLat == b.minLat then 0.0005 else b.maxLat - b.minLat;
    var dLng := if b.maxLng == b.minLng then 0.0005 else b.maxLng - b.minLng;
    Box(b.minLat - dLat * 0.15, b.maxLat + dLat * 0.15, b.minLng - dLng * 0.15, b.maxLng + dLng * 0.15)
  }

  predicate Fits(north: real -> real, b: Box, width: nat, height: nat, z: nat) {
    && WorldX(b.maxLng, z) - WorldX(b.minLng, z) <= width as real
    && WorldY(north, b.minLat, z) - WorldY(north, b.maxLat, z) <= height as real
  }

  /** The deepest zoom at which the box fits, or the shallowest when it fits at none. */
  method ChooseZoom(north: real -> real, b: Box, width: nat, height: nat) returns (z: nat)
    ensures 1 <= z <= 19
    ensures forall deeper :: z < deeper <= 19 ==> !Fits(north, b, width, height, deeper)
    ensures Fits(north, b, width, height, z) || z == 1
  {
    z := MAX_ZOOM;
    while z >= MIN_ZOOM
      invariant 0 <= z <= MAX_ZOOM
      invariant forall deeper :: z < deeper <= MAX_ZOOM ==> !Fits(north, b, width, height, deeper)
    {
      if Fits(north, b, width, height, z) {
        return;
      }
      z := z - 1;
    }
    z := MIN_ZOOM;
  }

  lemma Scales(d: real, z: nat, limit: real)
    requires d * Pow2(z + 1) <= limit && limit >= 0.0
    ensures d * Pow2(z) <= limit
  {
    assert d * Pow2(z + 1) == 2.0 * (d * Pow2(z));
  }

  /** A box that fits at one zoom fits at every shallower one, so the search gives the deepest of all that fit. */
  lemma FitsShallower(north: real -> real, b: Box, width: nat, height: nat, z: nat)
    requires Fits(north, b, width, height, z + 1)
    ensures Fits(north, b, width, height, z)
  {
    var dx := (b.maxLng - b.minLng) / 360.0 * 256.0;
    var dy := (north(b.minLat) - north(b.maxLat)) * 256.0;
    SpanX(b.minLng, b.maxLng, z);
    SpanX(b.minLng, b.maxLng, z + 1);
    SpanY(north(b.maxLat), north(b.minLat), Pow2(z));
    SpanY(north(b.maxLat), north(b.minLat), Pow2(z + 1));
    Scales(dx, z, width as real);
    Scales(dy, z, height as real);
  }

  lemma SpanX(a: real, b: real, z: nat)
    ensures WorldX(b, z) - WorldX(a, z) == (b - a) / 360.0 * 256.0 * Pow2(z)
  {
    Distribute((b + 180.0) / 360.0 * 256.0, (a + 180.0) / 360.0 * 256.0, Pow2(z));
  }

  lemma SpanY(a: real, b: real, n: real)
    ensures b * 256.0 * n - a * 256.0 * n == (b - a) * 256.0 * n
  {
    Distribute(b * 256.0, a * 256.0, n);
  }

  lemma Distribute(b: real, a: real, n: real)
    ensures b * n - a * n == (b - a) * n
  {
  }

  // ---- The map ----------------------------------------------------------------------------

  datatype Projection = Projection(zoom: nat, left: real, top: real)

  datatype Tile = Tile(zoom: nat, x: int, y: int)

  datatype Draw = Draw(tile: Tile, x: int, y: int)

  datatype FetchError = FetchError(tile: Tile)

  /** The canvas centred on the middle of the padded box. */
  function Centred(north: real -> real, b: Box, width: nat, height: nat, z: nat): Projection {
    var cx := WorldX((b.minLng + b.maxLng) / 2.0, z);
    var cy := WorldY(north, (b.minLat + b.maxLat) / 2.0, z);
    Projection(z, cx - width as real / 2.0, cy - height as real / 2.0)
  }

  function DrawOf(p: Projection, tx: int, ty: int): Draw {
    Draw(Tile(p.zoom, tx, ty), Place(tx, p.left), Place(ty, p.top))
  }

  /** The tiles of one row, up to but not including column x1. */
  function Row(p: Projection, x0: int, x1: int, ty: int): seq<Draw>
    decreases x1 - x0
  {
    if x1 <= x0 then [] else Row(p, x0, x1 - 1, ty) + [DrawOf(p, x1 - 1, ty)]
  }

  /** Whole rows, up to but not including row y1. */
  function Rows(p: Projection, x0: int, x1: int, y0: int, y1: int): seq<Draw>
    decreases y1 - y0
  {
    if y1 <= y0 then [] else Rows(p, x0, x1, y0, y1 - 1) + Row(p, x0, x1, y1 - 1)
  }

  /** All the tiles of the canvas, row by row. */
  function Cover(p: Projection, width: nat, height: nat): seq<Draw> {
    Rows(p, FirstTile(p.left), LastTile(p.left, width) + 1, FirstTile(p.top), LastTile(p.top, height) + 1)
  }

  /**
   Draws every tile of the canvas or gives up at the first that cannot be fetched, with the tiles before it
   drawn.
   */
  method DrawMap(pts: seq<Waypoint>, north: real -> real, width: nat, height: nat, loads: Tile -> bool)
      returns (r: Result<Projection, FetchError>, draws: seq<Draw>)
    requires pts != [] && width > 0 && height > 0
    ensures exists p ::
              && Frames(pts, north, width, height, p)
              && draws <= Cover(p, width, height) && (forall d :: d in draws ==> loads(d.tile))
              && (r.Ok? ==> r.value == p && draws == Cover(p, width, height))
              && (r.Err? ==> |draws| < |Cover(p, width, height)| && !loads(r.error.tile)
                             && r.error.tile == Cover(p, width, height)[|draws|].tile)
  {
    hide Encloses, Fits, Centred, Padded, Cover;
    var b := BoundingBox(pts);
    var zoom := ChooseZoom(north, Padded(b), width, height);
    var p := Centred(north, Padded(b), width, height, zoom);
    var failed;
    failed, draws := DrawTiles(p, width, height, loads);
    r := if failed.Some? then Err(failed.value) else Ok(p);
    assert FramesAt(pts, north, width, height, p, b, zoom);
    assert Frames(pts, north, width, height, p);
  }

  /** The canvas is centred on the padded box around the waypoints, at the deepest zoom at which that fits. */
  ghost predicate Frames(pts: seq<Waypoint>, north: real -> real, width: nat, height: nat, p: Projection) {
    exists b, z: nat :: FramesAt(pts, north, width, height, p, b, z)
  }

  ghost predicate FramesAt(pts: seq<Waypoint>, north: real -> real, width: nat, height: nat, p: Projection, b: Box,
                           z: nat) {
    && Encloses(b, pts) && p == Centred(north, Padded(b), width, height, z)
    && MIN_ZOOM <= z <= MAX_ZOOM && (Fits(north, Padded(b), width, height, z) || z == MIN_ZOOM)
    && forall deeper :: z < deeper <= MAX_ZOOM ==> !Fits(north, Padded(b), width, height, deeper)
  }

  /** The two loops over the tile range. */
  method DrawTiles(p: Projection, width: nat, height: nat, loads: Tile -> bool)
      returns (failed: Option<FetchError>, draws: seq<Draw>)
    requires width > 0 && height > 0
    ensures draws <= Cover(p, width, height) && forall d :: d in draws ==> loads(d.tile)
    ensures failed.None? ==> draws == Cover(p, width, height)
    ensures failed.Some? ==> |draws| < |Cover(p, width, height)| && !loads(failed.value.tile)
                             && failed.value.tile == Cover(p, width, height)[|draws|].tile
  {
    hide FirstTile, LastTile, Place, Rows, Row;
    var x0, y0 := FirstTile(p.left), FirstTile(p.top);
    var x1, y1 := LastTile(p.left, width), LastTile(p.top, height);
    RangeMeetsCanvas(p.left, width);
    RangeMeetsCanvas(p.top, height);
    draws := [];
    NoRows(p, x0, x1 + 1, y0);
    for ty := y0 to y1 + 1
      invariant draws == Rows(p, x0, x1 + 1, y0, ty)
      invariant forall d :: d in draws ==> loads(d.tile)
    {
      ghost var above := draws;
      OneMoreOfRows(p, x0, x1 + 1, y0, ty);
      for tx := x0 to x1 + 1
        invariant draws == above + Row(p, x0, tx, ty)
        invariant forall d :: d in draws ==> loads(d.tile)
      {
        var tile := Tile(p.zoom, tx, ty);
        if !loads(tile) {
          NextInCover(p, x0, x1 + 1, y0, y1 + 1, tx, ty);
          return Some(FetchError(tile)), draws;
        }
        OneMoreOfRow(p, x0, tx, ty, above);
        draws := draws + [Draw(tile, Place(tx, p.left), Place(ty, p.top))];
      }
    }
    return None, draws;
  }

  lemma NoRows(p: Projection, x0: int, x1: int, y0: int)
    ensures Rows(p, x0, x1, y0, y0) == []
  {
  }

  lemma OneMoreOfRows(p: Projection, x0: int, x1: int, y0: int, ty: int)
    requires y0 <= ty
    ensures Rows(p, x0, x1, y0, ty + 1) == Rows(p, x0, x1, y0, ty) + Row(p, x0, x1, ty)
    ensures Rows(p, x0, x1, y0, ty) + Row(p, x0, x0, ty) == Rows(p, x0, x1, y0, ty)
  {
  }

  lemma OneMoreOfRow(p: Projection, x0: int, tx: int, ty: int, above: seq<Draw>)
    requires x0 <= tx
    ensures above + Row(p, x0, tx + 1, ty)
         == above + Row(p, x0, tx, ty) + [Draw(Tile(p.zoom, tx, ty), Place(tx, p.left), Place(ty, p.top))]
  {
    hide Place;
  }

  lemma {:induction false} RowPrefix(p: Projection, x0: int, x1: int, ty: int, tx: int)
    requires x0 <= tx < x1
    ensures Row(p, x0, tx, ty) + [DrawOf(p, tx, ty)] <= Row(p, x0, x1, ty)
    decreases x1 - x0
  {
    if tx < x1 - 1 {
      RowPrefix(p, x0, x1 - 1, ty, tx);
    }
  }

  lemma {:induction false} RowsPrefix(p: Projection, x0: int, x1: int, y0: int, y1: int, ty: int)
    requires y0 <= ty < y1
    ensures Rows(p, x0, x1, y0, ty) + Row(p, x0, x1, ty) <= Rows(p, x0, x1, y0, y1)
    decreases y1 - y0
  {
    if ty < y1 - 1 {
      RowsPrefix(p, x0, x1, y0, y1 - 1, ty);
    }
  }

  lemma NextInCover(p: Projection, x0: int, x1: int, y0: int, y1: int, tx: int, ty: int)
    requires x0 <= tx < x1 && y0 <= ty < y1
    ensures var done := Rows(p, x0, x1, y0, ty) + Row(p, x0, tx, ty);
            var all := Rows(p, x0, x1, y0, y1);
            |done| < |all| && done <= all && all[|done|] == DrawOf(p, tx, ty)
  {
    RowPrefix(p, x0, x1, ty, tx);
    RowsPrefix(p, x0, x1, y0, y1, ty);
    Chain(Rows(p, x0, x1, y0, ty), Row(p, x0, tx, ty), DrawOf(p, tx, ty), Row(p, x0, x1, ty),
          Rows(p, x0, x1, y0, y1));
  }

  lemma Chain(a: seq<Draw>, b: seq<Draw>, d: Draw, c: seq<Draw>, all: seq<Draw>)
    requires b + [d] <= c && a + c <= all
    ensures |a + b| < |all| && a + b <= all && all[|a + b|] == d
  {
    assert c[..|b| + 1] == b + [d];
    assert all[..|a| + |c|] == a + c;
    assert all[|a| + |b|] == (a + c)[|a| + |b|] == c[|b|] == (b + [d])[|b|];
    assert a + b == (a + c)[..|a| + |b|];
  }

  // ---- What the map shows -----------------------------------------------------------------

  predicate Paints(d: Draw, x: int, y: int) {
    d.x <= x < d.x + TILE && d.y <= y < d.y + TILE
  }

  lemma {:induction false} RowHas(p: Projection, x0: int, x1: int, ty: int)
    ensures forall d :: d in Row(p, x0, x1, ty) <==> exists tx :: x0 <= tx < x1 && d == DrawOf(p, tx, ty)
    decreases x1 - x0
  {
    hide DrawOf;
    if x0 < x1 {
      RowHas(p, x0, x1 - 1, ty);
      assert forall d :: (d in Row(p, x0, x1, ty) <==> d in Row(p, x0, x1 - 1, ty) || d == DrawOf(p, x1 - 1, ty));
    }
  }

  lemma {:induction false} RowsHave(p: Projection, x0: int, x1: int, y0: int, y1: int)
    ensures forall d :: d in Rows(p, x0, x1, y0, y1)
              <==> exists tx, ty :: x0 <= tx < x1 && y0 <= ty < y1 && d == DrawOf(p, tx, ty)
    decreases y1 - y0
  {
    hide DrawOf;
    if y0 < y1 {
      RowsHave(p, x0, x1, y0, y1 - 1);
      RowHas(p, x0, x1, y1 - 1);
      assert forall d :: (d in Rows(p, x0, x1, y0, y1) <==>
                            d in Rows(p, x0, x1, y0, y1 - 1) || d in Row(p, x0, x1, y1 - 1));
    }
  }

  /** Every pixel of the canvas is painted, except for a bare last column or row. */
  lemma CanvasCovered(p: Projection, width: nat, height: nat, x: nat, y: nat)
    requires x < width && y < height
    ensures (exists d :: d in Cover(p, width, height) && Paints(d, x, y))
              <==> !(x == width - 1 && LastBare(p.left, width)) && !(y == height - 1 && LastBare(p.top, height))
  {
    hide Place, FirstTile, LastTile, LastBare, Rows;
    CoveredColumns(p.left, width, x);
    CoveredColumns(p.top, height, y);
    var x0, x1, y0, y1 := FirstTile(p.left), LastTile(p.left, width), FirstTile(p.top), LastTile(p.top, height);
    RowsHave(p, x0, x1 + 1, y0, y1 + 1);
    if tx, ty :| x0 <= tx <= x1 && y0 <= ty <= y1 && Shows(tx, p.left, x) && Shows(ty, p.top, y) {
      var d := DrawOf(p, tx, ty);
      assert d in Cover(p, width, height) && Paints(d, x, y);
    } else {
      forall d | d in Cover(p, width, height)
        ensures !Paints(d, x, y)
      {
        var tx, ty :| x0 <= tx < x1 + 1 && y0 <= ty < y1 + 1 && d == DrawOf(p, tx, ty);
        assert !(Shows(tx, p.left, x) && Shows(ty, p.top, y));
      }
    }
  }

  /** Where the overlay puts a longitude. */
  function CanvasX(p: Projection, lng: real): real {
    WorldX(lng, p.zoom) - p.left
  }

  function CanvasY(p: Projection, north: real -> real, lat: real): real {
    WorldY(north, lat, p.zoom) - p.top
  }

  /**
   The overlay and the tiles agree to less than a pixel: wherever a point lies within a tile of the world, it
   lands on the canvas less than a pixel from that place within the tile as it is drawn.
   */
  lemma OverlayMeetsTiles(p: Projection, width: nat, height: nat, north: real -> real, d: Draw, lat: real, lng: real)
    requires d in Cover(p, width, height)
    ensures var x := WorldX(lng, p.zoom) - (d.tile.x * 256) as real;
            var y := WorldY(north, lat, p.zoom) - (d.tile.y * 256) as real;
            && d.tile.zoom == p.zoom
            && -1.0 < (d.x as real + x) - CanvasX(p, lng) < 1.0
            && -1.0 < (d.y as real + y) - CanvasY(p, north, lat) < 1.0
  {
    hide WorldX, WorldY, Place, Offset, FirstTile, LastTile;
    CoverTiles(p, width, height);
    PlacedWithinAPixel(d.tile.x, p.left);
    PlacedWithinAPixel(d.tile.y, p.top);
    OffsetIs(d.tile.x, p.left);
    OffsetIs(d.tile.y, p.top);
  }

  lemma OffsetIs(t: int, left: real)
    ensures Offset(t, left) == (t * 256) as real - left
  {
  }

  /** The draws of a map are one for each tile of the range, at that tile's place. */
  lemma CoverTiles(p: Projection, width: nat, height: nat)
    ensures forall d :: d in Cover(p, width, height) <==>
                          exists tx, ty ::
                            && FirstTile(p.left) <= tx <= LastTile(p.left, width)
                            && FirstTile(p.top) <= ty <= LastTile(p.top, height)
                            && d == Draw(Tile(p.zoom, tx, ty), Place(tx, p.left), Place(ty, p.top))
  {
    hide Place, FirstTile, LastTile, Rows;
    var x0, x1, y0, y1 := FirstTile(p.left), LastTile(p.left, width), FirstTile(p.top), LastTile(p.top, height);
    RowsHave(p, x0, x1 + 1, y0, y1 + 1);
    forall tx, ty
      ensures DrawOf(p, tx, ty) == Draw(Tile(p.zoom, tx, ty), Place(tx, p.left), Place(ty, p.top))
    {
    }
  }

  lemma {:induction false} RowAt(p: Projection, x0: int, x1: int, ty: int, i: nat)
    requires i < x1 - x0
    ensures |Row(p, x0, x1, ty)| == x1 - x0
    ensures Row(p, x0, x1, ty)[i] == Draw(Tile(p.zoom, x0 + i, ty), Place(x0 + i, p.left), Place(ty, p.top))
    decreases x1 - x0
  {
    hide Place;
    if x1 - 1 - x0 > 0 {
      RowAt(p, x0, x1 - 1, ty, if i < x1 - 1 - x0 then i else 0);
    }
  }

  lemma {:induction false} RowsAt(p: Projection, x0: int, x1: int, y0: int, y1: int, i: nat, j: nat)
    requires i < x1 - x0 && j < y1 - y0
    ensures |Rows(p, x0, x1, y0, y1)| == (y1 - y0) * (x1 - x0) && j * (x1 - x0) + i < (y1 - y0) * (x1 - x0)
    ensures Rows(p, x0, x1, y0, y1)[j * (x1 - x0) + i]
         == Draw(Tile(p.zoom, x0 + i, y0 + j), Place(x0 + i, p.left), Place(y0 + j, p.top))
    decreases y1 - y0
  {
    hide Place, Row;
    var n, above := x1 - x0, y1 - 1 - y0;
    RowAt(p, x0, x1, y1 - 1, i);
    Before(j, above, n, i);
    if above > 0 {
      RowsAt(p, x0, x1, y0, y1 - 1, i, if j < above then j else 0);
    }
  }

  lemma Before(j: nat, above: nat, n: nat, i: nat)
    requires j <= above && i < n
    ensures (above + 1) * n == above * n + n && j * n + i < (above + 1) * n
    ensures j < above ==> j * n + i < above * n
    ensures above == 0 ==> above * n == 0
  {
    OneMoreRow(above, n);
    OneMoreRow(j, n);
    AtLeast(j, above, n);
    if j < above {
      AtLeast(j + 1, above, n);
    }
  }

  lemma OneMoreRow(j: nat, n: nat)
    ensures (j + 1) * n == j * n + n
  {
  }

  lemma {:induction false} AtLeast(j: nat, above: nat, n: nat)
    requires j <= above
    ensures j * n <= above * n
    decreases above - j
  {
    if j < above {
      OneMoreRow(j, n);
      AtLeast(j + 1, above, n);
    }
  }

  /** They are made row by row from the top, each from the left. */
  lemma CoverInOrder(p: Projection, width: nat, height: nat, i: nat, j: nat)
    requires i <= LastTile(p.left, width) - FirstTile(p.left) && j <= LastTile(p.top, height) - FirstTile(p.top)
    ensures var x0, y0 := FirstTile(p.left), FirstTile(p.top);
            var columns := LastTile(p.left, width) + 1 - x0;
            && j * columns + i < |Cover(p, width, height)|
            && Cover(p, width, height)[j * columns + i]
               == Draw(Tile(p.zoom, x0 + i, y0 + j), Place(x0 + i, p.left), Place(y0 + j, p.top))
  {
    hide Place, FirstTile, LastTile, Rows;
    RowsAt(p, FirstTile(p.left), LastTile(p.left, width) + 1, FirstTile(p.top), LastTile(p.top, height) + 1, i, j);
  }

  /** Padding keeps the middle and makes the box wider and higher by three tenths. */
  lemma PaddedWidens(b: Box)
    ensures var wide := Padded(b);
            var width, height := b.maxLng - b.minLng, b.maxLat - b.minLat;
            && wide.minLng + wide.maxLng == b.minLng + b.maxLng && wide.minLat + wide.maxLat == b.minLat + b.maxLat
            && wide.maxLng - wide.minLng == (if width == 0.0 then 0.00015 else 1.3 * width)
            && wide.maxLat - wide.minLat == (if height == 0.0 then 0.00015 else 1.3 * height)
  {
  }

  /** A box fits when it is no wider and no higher on the canvas than the canvas is. */
  lemma FitsOnCanvas(north: real -> real, b: Box, width: nat, height: nat, p: Projection)
    ensures Fits(north, b, width, height, p.zoom) <==>
              && CanvasX(p, b.maxLng) - CanvasX(p, b.minLng) <= width as real
              && CanvasY(p, north, b.minLat) - CanvasY(p, north, b.maxLat) <= height as real
  {
    hide WorldX, WorldY;
  }

  /** The world is 256 pixels wide at zoom 0 and twice as wide at each further one. */
  lemma WorldWidth(z: nat)
    ensures WorldX(-180.0, z) == 0.0 && WorldX(180.0, 0) == 256.0
    ensures forall lng :: WorldX(lng, z + 1) == 2.0 * WorldX(lng, z)
  {
    forall lng
      ensures WorldX(lng, z + 1) == 2.0 * WorldX(lng, z)
    {
      Doubled((lng + 180.0) / 360.0 * 256.0, Pow2(z));
    }
  }

  lemma Doubled(x: real, n: real)
    ensures x * (2.0 * n) == 2.0 * (x * n)
  {
  }

  /** The middle of the padded box is the middle of the canvas. */
  lemma CentredOnMiddle(north: real -> real, b: Box, width: nat, height: nat, z: nat)
    ensures var p := Centred(north, b, width, height, z);
            && p.zoom == z
            && CanvasX(p, (b.minLng + b.maxLng) / 2.0) == width as real / 2.0
            && CanvasY(p, north, (b.minLat + b.maxLat) / 2.0) == height as real / 2.0
  {
    hide WorldX, WorldY;
  }

  /** When the padded box fits, every waypoint's column lies on the canvas. */
  lemma WaypointsOnCanvas(pts: seq<Waypoint>, north: real -> real, b: Box, width: nat, height: nat, z: nat, k: nat)
    requires k < |pts| && Encloses(b, pts) && Fits(north, Padded(b), width, height, z)
    ensures 0.0 < CanvasX(Centred(north, Padded(b), width, height, z), pts[k].lng) < width as real
  {
    hide WorldX, WorldY, Pow2, Padded, Encloses, Fits;
    var wide := Padded(b);
    PaddedAround(b, pts, k);
    FitsAcross(north, wide, width, height, z);
    FromMiddle(wide.minLng, wide.maxLng, pts[k].lng, width as real, z);
  }

  lemma FitsAcross(north: real -> real, b: Box, width: nat, height: nat, z: nat)
    requires Fits(north, b, width, height, z)
    ensures WorldX(b.maxLng, z) - WorldX(b.minLng, z) <= width as real
  {
  }

  lemma FromMiddle(lo: real, hi: real, v: real, width: real, z: nat)
    requires lo < v < hi && WorldX(hi, z) - WorldX(lo, z) <= width
    ensures -width / 2.0 < WorldX(v, z) - WorldX((lo + hi) / 2.0, z) < width / 2.0
  {
    hide WorldX, Pow2;
    SpanX(lo, hi, z);
    SpanX((lo + hi) / 2.0, v, z);
    Half(lo, hi, v, Pow2(z), width);
  }

  lemma PaddedAround(b: Box, pts: seq<Waypoint>, k: nat)
    requires k < |pts| && Encloses(b, pts)
    ensures Padded(b).minLng < pts[k].lng < Padded(b).maxLng
  {
    assert Within(b, pts[k]);
  }

  lemma Half(lo: real, hi: real, v: real, n: real, width: real)
    requires lo < v < hi && n >= 1.0 && (hi - lo) / 360.0 * 256.0 * n <= width
    ensures -width / 2.0 < (v - (lo + hi) / 2.0) / 360.0 * 256.0 * n < width / 2.0
  {
    var half := (hi - lo) / 2.0 / 360.0 * 256.0;
    var off := (v - (lo + hi) / 2.0) / 360.0 * 256.0;
    assert -half < off < half;
    Product(off, half, n);
    Product(-off, half, n);
    assert half * n == (hi - lo) / 360.0 * 256.0 * n / 2.0;
  }

  lemma Product(a: real, b: real, n: real)
    requires a < b && n > 0.0
    ensures a * n < b * n
  {
  }

  // ---- A map with a bare column -----------------------------------------------------------

  /** A waypoint 6.5 pixels east of a tile boundary at the deepest zoom. */
  const BARE_LNG := 2340.0 / 134217728.0

  lemma DeepestPow2()
    ensures Pow2(MAX_ZOOM) == 524288.0
  {
    assert Pow2(4) == 16.0;
    assert Pow2(8) == 256.0;
    assert Pow2(12) == 4096.0;
    assert Pow2(16) == 65536.0;
  }

  lemma BareLeft()
    ensures WorldX(BARE_LNG, MAX_ZOOM) == 67108870.5 && LastBare(67108870.5 - 250.0, 500)
  {
    DeepestPow2();
    assert ((67108870.5 - 250.0 + 499.0) / 256.0).Floor == 262144;
  }

  lemma OnePoint(b: Box)
    requires Encloses(b, [Waypoint(0.0, BARE_LNG)])
    ensures b == Box(0.0, 0.0, BARE_LNG, BARE_LNG)
  {
    var pts := [Waypoint(0.0, BARE_LNG)];
    assert InRange(pts[0]) && forall k :: 0 <= k < |pts| ==> InRange(pts[k]);
  }

  lemma OnePointFits(north: real -> real)
    ensures var wide := Padded(Box(0.0, 0.0, BARE_LNG, BARE_LNG));
            WorldY(north, wide.minLat, MAX_ZOOM) - WorldY(north, wide.maxLat, MAX_ZOOM) <= 300.0 ==>
              Fits(north, wide, 500, 300, MAX_ZOOM)
  {
    hide WorldY;
    var wide := Padded(Box(0.0, 0.0, BARE_LNG, BARE_LNG));
    SpanX(wide.minLng, wide.maxLng, MAX_ZOOM);
    DeepestPow2();
    assert wide.maxLng - wide.minLng == 0.00015;
  }

  /**
   The bare column is real: a mission with this one waypoint, on the default canvas of 500 by 300, has its
   last column bare. All that is asked of the latitudes is that the box is not too high for the canvas.
   */
  lemma BareColumn(north: real -> real, p: Projection, y: nat)
    requires var wide := Padded(Box(0.0, 0.0, BARE_LNG, BARE_LNG));
             WorldY(north, wide.minLat, MAX_ZOOM) - WorldY(north, wide.maxLat, MAX_ZOOM) <= 300.0
    requires Frames([Waypoint(0.0, BARE_LNG)], north, 500, 300, p) && y < 300
    ensures LastBare(p.left, 500) && !exists d :: d in Cover(p, 500, 300) && Paints(d, 499, y)
  {
    hide WorldX, WorldY, Encloses, Fits, LastBare, Cover;
    var pts := [Waypoint(0.0, BARE_LNG)];
    var b, z: nat :| FramesAt(pts, north, 500, 300, p, b, z);
    OnePoint(b);
    OnePointFits(north);
    BareLeft();
    var wide := Padded(b);
    assert (wide.minLng + wide.maxLng) / 2.0 == BARE_LNG;
    CanvasCovered(p, 500, 300, 499, y);
  }
}
