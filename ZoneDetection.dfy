/**
 * Zone fill detection and clearing.  The play area is cut into
 * DETECTION_ZONES_COUNT horizontal bands; a scan from the bottom band to the
 * top one estimates how much of each band the resting bodies cover, reports
 * that ratio, and clears a band whose ratio reaches the threshold by removing
 * the bodies in it and putting back rectangular remnants above and below it.
 */
module ZoneDetection {
  import opened Extent
  import opened Physics

  const BLOCK_SIZE: nat := 30
  const GRID_WIDTH_BLOCKS: nat := 10
  const GRID_HEIGHT_BLOCKS: nat := 20
  const CANVAS_EXTRA_HEIGHT_BLOCKS: nat := 0
  const DETECTION_ZONES_COUNT: nat := 20
  const DETECTION_ZONE_FILL_THRESHOLD: real := 0.8

  const STRIPE_COLOR_1: string := "#e8e8e8"
  const STRIPE_COLOR_2: string := "#d8d8d8"

  // Dimensions in pixels, as the getters compute them (see `DimensionGetters`).
  const PLAY_AREA_WIDTH: real := 300.0
  const PLAY_AREA_HEIGHT: real := 600.0
  const PLAY_AREA_Y_OFFSET: real := 0.0
  const DETECTION_ZONE_HEIGHT: real := 30.0
  const ZONE_AREA: real := 9000.0

  /** The dimension constants are the getters' products and quotients of the grid constants. */
  lemma DimensionGetters()
    ensures PLAY_AREA_WIDTH == (GRID_WIDTH_BLOCKS * BLOCK_SIZE) as real
    ensures PLAY_AREA_HEIGHT == (GRID_HEIGHT_BLOCKS * BLOCK_SIZE) as real
    ensures PLAY_AREA_Y_OFFSET == (CANVAS_EXTRA_HEIGHT_BLOCKS * BLOCK_SIZE) as real
    ensures DETECTION_ZONE_HEIGHT == PLAY_AREA_HEIGHT / DETECTION_ZONES_COUNT as real
    ensures ZONE_AREA == PLAY_AREA_WIDTH * DETECTION_ZONE_HEIGHT
  {
  }

  /** Upper edge (smaller y) of band `zoneIndex`. */
  function ZoneTop(zoneIndex: int): real
  {
    PLAY_AREA_Y_OFFSET + zoneIndex as real * DETECTION_ZONE_HEIGHT
  }

  /** Lower edge (larger y) of band `zoneIndex`. */
  function ZoneBottom(zoneIndex: int): real
  {
    ZoneTop(zoneIndex) + DETECTION_ZONE_HEIGHT
  }

  /** The bands have positive height, tile the play area without gaps, and band 0 is the top one. */
  lemma ZonesTileThePlayArea(zoneIndex: int)
    requires 0 <= zoneIndex < DETECTION_ZONES_COUNT
    ensures ZoneTop(zoneIndex) < ZoneBottom(zoneIndex)
    ensures PLAY_AREA_Y_OFFSET <= ZoneTop(zoneIndex)
    ensures ZoneBottom(zoneIndex) <= PLAY_AREA_Y_OFFSET + PLAY_AREA_HEIGHT
    ensures zoneIndex + 1 < DETECTION_ZONES_COUNT ==> ZoneBottom(zoneIndex) == ZoneTop(zoneIndex + 1)
    ensures ZoneTop(0) == PLAY_AREA_Y_OFFSET
    ensures ZoneBottom(DETECTION_ZONES_COUNT - 1) == PLAY_AREA_Y_OFFSET + PLAY_AREA_HEIGHT
  {
  }

  // ---------------------------------------------------------------------
  // Background stripes

  function Digit(d: nat): char
    requires d < 10
  {
    "0123456789"[d]
  }

  /** Decimal text of `n`, as a template literal prints it. */
  function DecimalString(n: nat): (s: string)
    ensures |s| > 0
    ensures forall k :: 0 <= k < |s| ==> '0' <= s[k] <= '9'
  {
    if n < 10 then [Digit(n)] else DecimalString(n / 10) + [Digit(n % 10)]
  }

  /** The number a run of decimal digits spells, most significant first. */
  function DecimalValue(s: string): nat
    requires forall k :: 0 <= k < |s| ==> '0' <= s[k] <= '9'
  {
    if |s| == 0 then 0
    else DecimalValue(s[..|s| - 1]) * 10 + (s[|s| - 1] as int - '0' as int)
  }

  /** The digits printed for `n` spell `n`. */
  lemma {:induction false} DecimalRoundTrip(n: nat)
    ensures DecimalValue(DecimalString(n)) == n
  {
    var s := DecimalString(n);
    if n >= 10 {
      DecimalRoundTrip(n / 10);
      assert s[..|s| - 1] == DecimalString(n / 10);
    } else {
      assert s[..0] == [];
    }
  }

  /** Different bands get different stripe labels. */
  lemma StripeLabelsDistinct(i: nat, j: nat, canvasWidth: real, idI: nat, idJ: nat)
    requires i != j
    ensures Stripe(i, canvasWidth, idI).bodyLabel != Stripe(j, canvasWidth, idJ).bodyLabel
  {
    var prefix := "stripe-zone-";
    if Stripe(i, canvasWidth, idI).bodyLabel == Stripe(j, canvasWidth, idJ).bodyLabel {
      var a, b := prefix + DecimalString(i), prefix + DecimalString(j);
      assert a[|prefix|..] == DecimalString(i);
      assert b[|prefix|..] == DecimalString(j);
      DecimalRoundTrip(i);
      DecimalRoundTrip(j);
    }
  }

  function StripeColor(i: nat): string
  {
    if i % 2 == 0 then STRIPE_COLOR_1 else STRIPE_COLOR_2
  }

  /** The static, non-colliding sensor body drawn behind band `i`. */
  function Stripe(i: nat, canvasWidth: real, id: nat): Body
  {
    Rectangle(id, canvasWidth / 2.0, ZoneTop(i) + DETECTION_ZONE_HEIGHT / 2.0,
              canvasWidth, DETECTION_ZONE_HEIGHT, true, true,
              Render(Some(StripeColor(i)), None, None),
              "stripe-zone-" + DecimalString(i), false)
  }

  /** One stripe per band, with consecutive identities from `firstId`. */
  function Stripes(canvasWidth: real, firstId: nat): (s: seq<Body>)
    ensures |s| == DETECTION_ZONES_COUNT
    ensures forall i :: 0 <= i < |s| ==> s[i] == Stripe(i, canvasWidth, firstId + i)
    ensures forall i :: 0 <= i < |s| ==> s[i].isStatic && s[i].isSensor
  {
    seq(DETECTION_ZONES_COUNT, i requires 0 <= i < DETECTION_ZONES_COUNT => Stripe(i, canvasWidth, firstId + i))
  }

  /**
   * Stripe `i` is a static sensor spanning exactly band `i` vertically and
   * the canvas horizontally, centred on the band, and the colours alternate.
   */
  lemma StripeCoversItsZone(i: nat, canvasWidth: real, id: nat)
    requires i < DETECTION_ZONES_COUNT && canvasWidth >= 0.0
    ensures var s := Stripe(i, canvasWidth, id);
            && s.isStatic && s.isSensor
            && s.id == id
            && s.position == Point(canvasWidth / 2.0, (ZoneTop(i) + ZoneBottom(i)) / 2.0)
            && HighestY(s.vertices) == ZoneTop(i) && LowestY(s.vertices) == ZoneBottom(i)
            && LeftX(s.vertices) == 0.0 && RightX(s.vertices) == canvasWidth
            && s.render.fillStyle == Some(if i % 2 == 0 then STRIPE_COLOR_1 else STRIPE_COLOR_2)
  {
    RectangleExtent(id, canvasWidth / 2.0, ZoneTop(i) + DETECTION_ZONE_HEIGHT / 2.0,
                    canvasWidth, DETECTION_ZONE_HEIGHT, true, true,
                    Render(Some(StripeColor(i)), None, None),
                    "stripe-zone-" + DecimalString(i), false);
  }

  // ---------------------------------------------------------------------
  // Which bodies are measured

  /** The bodies the scan looks at: neither static nor a sensor, in world order. */
  function Candidates(bodies: seq<Body>): (r: seq<Body>)
    ensures forall b :: b in r <==> b in bodies && !b.isStatic && !b.isSensor
  {
    if |bodies| == 0 then []
    else (if !bodies[0].isStatic && !bodies[0].isSensor then [bodies[0]] else []) + Candidates(bodies[1..])
  }

  /** A list of static bodies offers no candidates. */
  lemma {:induction false} NoCandidates(bodies: seq<Body>)
    requires forall i :: 0 <= i < |bodies| ==> bodies[i].isStatic
    ensures Candidates(bodies) == []
  {
    if |bodies| > 0 {
      NoCandidates(bodies[1..]);
    }
  }

  /** The candidates of a non-empty list: its first body if it qualifies, then those of the rest. */
  lemma CandidatesCons(first: Body, rest: seq<Body>)
    ensures Candidates([first] + rest)
            == (if !first.isStatic && !first.isSensor then [first] else []) + Candidates(rest)
  {
    assert ([first] + rest)[0] == first;
    assert ([first] + rest)[1..] == rest;
  }

  /** Filtering a concatenation filters each part, keeping the order. */
  lemma {:induction false} CandidatesAppend(a: seq<Body>, b: seq<Body>)
    ensures Candidates(a + b) == Candidates(a) + Candidates(b)
  {
    if |a| > 0 {
      var first, rest := a[0], a[1..];
      assert a == [first] + rest;
      assert a + b == [first] + (rest + b);
      CandidatesAppend(rest, b);
      CandidatesCons(first, rest);
      CandidatesCons(first, rest + b);
    } else {
      assert a + b == b;
    }
  }

  /**
   * Stripes, being static sensors, never change what the scan measures,
   * wherever they sit in the world's list.
   */
  lemma StripesNeverMeasured(before: seq<Body>, after: seq<Body>, canvasWidth: real, firstId: nat)
    ensures Candidates(before + Stripes(canvasWidth, firstId) + after) == Candidates(before + after)
  {
    var stripes := Stripes(canvasWidth, firstId);
    NoCandidates(stripes);
    CandidatesAppend(before + stripes, after);
    CandidatesAppend(before, stripes);
    CandidatesAppend(before, after);
  }

  /** `body === currentBlock`. */
  predicate IsCurrentBlock(b: Body, currentBlock: Option<Body>)
  {
    currentBlock.Some? && currentBlock.value.id == b.id
  }

  /**
   * A body is in a band when one of its vertices lies within the band's
   * closed vertical range, or when it reaches past both edges.
   */
  predicate InZone(b: Body, zoneTop: real, zoneBottom: real)
  {
    || (exists k :: 0 <= k < |b.vertices| && zoneTop <= b.vertices[k].y <= zoneBottom)
    || (HighestY(b.vertices) < zoneTop && LowestY(b.vertices) > zoneBottom)
  }

  /** `isBodyInZone`: a search over the vertices, then the straddling test. */
  method IsBodyInZone(b: Body, zoneTop: real, zoneBottom: real) returns (r: bool)
    ensures r == InZone(b, zoneTop, zoneBottom)
  {
    for k := 0 to |b.vertices|
      invariant forall j :: 0 <= j < k ==> !(zoneTop <= b.vertices[j].y <= zoneBottom)
    {
      if zoneTop <= b.vertices[k].y <= zoneBottom {
        return true;
      }
    }
    var highestY := HighestY(b.vertices);
    var lowestY := LowestY(b.vertices);
    r := highestY < zoneTop && lowestY > zoneBottom;
  }

  /**
   * `calculateBodyAreaInZone`: the whole area of a body lying within the
   * band; for a body overlapping it partly, the area scaled by the share of
   * the body's height inside the band; zero otherwise.
   */
  function AreaInZone(b: Body, zoneTop: real, zoneBottom: real): real
  {
    var highestY := HighestY(b.vertices);
    var lowestY := LowestY(b.vertices);
    if highestY >= zoneTop && lowestY <= zoneBottom then b.area
    else if lowestY > zoneTop && highestY < zoneBottom then
      var totalHeight := lowestY - highestY;
      var overlapTop := if zoneTop >= highestY then zoneTop else highestY;
      var overlapBottom := if zoneBottom <= lowestY then zoneBottom else lowestY;
      Scaled(b.area, overlapBottom - overlapTop, totalHeight)
    else 0.0
  }

  /** `area * (part / whole)`: an area scaled by the share `part / whole`. */
  function Scaled(area: real, part: real, whole: real): (r: real)
    requires whole != 0.0
    ensures 0.0 <= area && 0.0 <= part <= whole ==> 0.0 <= r <= area
  {
    var q := part / whole;
    assert 0.0 <= area && 0.0 <= part <= whole ==> 0.0 <= q <= 1.0 by {
      if 0.0 <= area && 0.0 <= part <= whole {
        assert q * whole == part;
      }
    }
    assert 0.0 <= area && 0.0 <= q <= 1.0 ==> 0.0 <= area * q <= area * 1.0;
    area * q
  }

  /**
   * For a band of non-negative height and a body of non-negative area, the
   * estimate lies between 0 and the body's area: all of it for a body within
   * the band, none of it for a body that at most touches the band from above
   * or below.  (That the partial branch never divides by zero is checked
   * where `AreaInZone` is defined.)
   */
  lemma AreaInZoneBounds(b: Body, zoneTop: real, zoneBottom: real)
    requires 0.0 <= b.area && zoneTop <= zoneBottom
    ensures 0.0 <= AreaInZone(b, zoneTop, zoneBottom) <= b.area
    ensures zoneTop <= HighestY(b.vertices) && LowestY(b.vertices) <= zoneBottom ==>
              AreaInZone(b, zoneTop, zoneBottom) == b.area
    ensures HighestY(b.vertices) < zoneTop && LowestY(b.vertices) <= zoneTop ==>
              AreaInZone(b, zoneTop, zoneBottom) == 0.0
    ensures zoneBottom <= HighestY(b.vertices) && zoneBottom < LowestY(b.vertices) ==>
              AreaInZone(b, zoneTop, zoneBottom) == 0.0
  {
    var highestY := HighestY(b.vertices);
    var lowestY := LowestY(b.vertices);
    if highestY >= zoneTop && lowestY <= zoneBottom {
      assert AreaInZone(b, zoneTop, zoneBottom) == b.area;
    } else if lowestY > zoneTop && highestY < zoneBottom {
      var totalHeight := lowestY - highestY;
      var overlapTop := if zoneTop >= highestY then zoneTop else highestY;
      var overlapBottom := if zoneBottom <= lowestY then zoneBottom else lowestY;
      assert 0.0 < totalHeight;
      assert 0.0 <= overlapBottom - overlapTop <= totalHeight;
      assert AreaInZone(b, zoneTop, zoneBottom) == Scaled(b.area, overlapBottom - overlapTop, totalHeight);
    } else {
      assert AreaInZone(b, zoneTop, zoneBottom) == 0.0;
    }
  }

  /** A body with a non-zero estimate always passes the `isBodyInZone` test. */
  lemma AreaImpliesInZone(b: Body, zoneTop: real, zoneBottom: real)
    ensures AreaInZone(b, zoneTop, zoneBottom) != 0.0 ==> InZone(b, zoneTop, zoneBottom)
  {
    var vs := b.vertices;
    var highestY := HighestY(vs);
    var lowestY := LowestY(vs);
    ExtremesAreVertices(vs);
    var top :| 0 <= top < |vs| && vs[top].y == highestY;
    var bottom :| 0 <= bottom < |vs| && vs[bottom].y == lowestY;
    if highestY >= zoneTop && lowestY <= zoneBottom {
      assert zoneTop <= vs[top].y <= zoneBottom;
    } else if lowestY > zoneTop && highestY < zoneBottom {
      if highestY >= zoneTop {
        assert zoneTop <= vs[top].y <= zoneBottom;
      } else if lowestY <= zoneBottom {
        assert zoneTop <= vs[bottom].y <= zoneBottom;
      }
    }
  }

  /** What one body adds to `coveredArea`. */
  function Contribution(b: Body, currentBlock: Option<Body>, zoneTop: real, zoneBottom: real): real
  {
    if IsCurrentBlock(b, currentBlock) then 0.0
    else if InZone(b, zoneTop, zoneBottom) then AreaInZone(b, zoneTop, zoneBottom)
    else 0.0
  }

  /** Whether a body is pushed onto `bodiesInZone`. */
  predicate IsListed(b: Body, currentBlock: Option<Body>, zoneTop: real, zoneBottom: real)
  {
    !IsCurrentBlock(b, currentBlock) && InZone(b, zoneTop, zoneBottom) && AreaInZone(b, zoneTop, zoneBottom) > 0.0
  }

  /** `coveredArea` after the candidates have been visited in order. */
  function Covered(candidates: seq<Body>, currentBlock: Option<Body>, zoneTop: real, zoneBottom: real): real
  {
    if |candidates| == 0 then 0.0
    else Covered(candidates[..|candidates| - 1], currentBlock, zoneTop, zoneBottom)
         + Contribution(candidates[|candidates| - 1], currentBlock, zoneTop, zoneBottom)
  }

  /** `bodiesInZone` after the candidates have been visited in order. */
  function Listed(candidates: seq<Body>, currentBlock: Option<Body>, zoneTop: real, zoneBottom: real): seq<Body>
  {
    if |candidates| == 0 then []
    else
      var last := candidates[|candidates| - 1];
      Listed(candidates[..|candidates| - 1], currentBlock, zoneTop, zoneBottom)
      + (if IsListed(last, currentBlock, zoneTop, zoneBottom) then [last] else [])
  }

  /**
   * A body is listed exactly when it is a candidate, is not the current
   * block, and its estimate is positive; the vertex test adds nothing.
   */
  lemma {:induction false} ListedExactly(candidates: seq<Body>, currentBlock: Option<Body>, zoneTop: real, zoneBottom: real)
    ensures forall b :: b in Listed(candidates, currentBlock, zoneTop, zoneBottom) <==>
              b in candidates && !IsCurrentBlock(b, currentBlock) && AreaInZone(b, zoneTop, zoneBottom) > 0.0
  {
    if |candidates| > 0 {
      var prefix := candidates[..|candidates| - 1];
      var last := candidates[|candidates| - 1];
      ListedExactly(prefix, currentBlock, zoneTop, zoneBottom);
      AreaImpliesInZone(last, zoneTop, zoneBottom);
      assert candidates == prefix + [last];
      forall b | b in candidates && !IsCurrentBlock(b, currentBlock) && AreaInZone(b, zoneTop, zoneBottom) > 0.0
        ensures InZone(b, zoneTop, zoneBottom)
      {
        AreaImpliesInZone(b, zoneTop, zoneBottom);
      }
    }
  }

  /** With non-negative areas, the covered area is never negative. */
  lemma {:induction false} CoveredNonNegative(candidates: seq<Body>, currentBlock: Option<Body>, zoneTop: real, zoneBottom: real)
    requires forall b :: b in candidates ==> 0.0 <= b.area
    requires zoneTop <= zoneBottom
    ensures 0.0 <= Covered(candidates, currentBlock, zoneTop, zoneBottom)
  {
    if |candidates| > 0 {
      var prefix := candidates[..|candidates| - 1];
      var last := candidates[|candidates| - 1];
      CoveredNonNegative(prefix, currentBlock, zoneTop, zoneBottom);
      AreaInZoneBounds(last, zoneTop, zoneBottom);
    }
  }

  /** With non-negative areas, the covered area is at least any one body's contribution. */
  lemma {:induction false} CoveredAtLeastMember(candidates: seq<Body>, currentBlock: Option<Body>, zoneTop: real, zoneBottom: real, b: Body)
    requires forall c :: c in candidates ==> 0.0 <= c.area
    requires zoneTop <= zoneBottom
    requires b in candidates
    ensures Contribution(b, currentBlock, zoneTop, zoneBottom) <= Covered(candidates, currentBlock, zoneTop, zoneBottom)
  {
    var prefix := candidates[..|candidates| - 1];
    var last := candidates[|candidates| - 1];
    assert candidates == prefix + [last];
    AreaInZoneBounds(last, zoneTop, zoneBottom);
    if b == last {
      CoveredNonNegative(prefix, currentBlock, zoneTop, zoneBottom);
    } else {
      CoveredAtLeastMember(prefix, currentBlock, zoneTop, zoneBottom, b);
    }
  }

  /** Visiting one more candidate adds its contribution and, if it is listed, appends it. */
  lemma CoveredListedStep(candidates: seq<Body>, i: nat, currentBlock: Option<Body>, zoneTop: real, zoneBottom: real)
    requires i < |candidates|
    ensures Covered(candidates[..i + 1], currentBlock, zoneTop, zoneBottom)
            == Covered(candidates[..i], currentBlock, zoneTop, zoneBottom) + Contribution(candidates[i], currentBlock, zoneTop, zoneBottom)
    ensures Listed(candidates[..i + 1], currentBlock, zoneTop, zoneBottom)
            == Listed(candidates[..i], currentBlock, zoneTop, zoneBottom)
               + (if IsListed(candidates[i], currentBlock, zoneTop, zoneBottom) then [candidates[i]] else [])
  {
    assert candidates[..i + 1][..i] == candidates[..i];
  }

  /** The inner loop of `checkDetectionZones` for one band. */
  method MeasureZone(bodies: seq<Body>, currentBlock: Option<Body>, zoneTop: real, zoneBottom: real)
    returns (coveredArea: real, bodiesInZone: seq<Body>)
    ensures coveredArea == Covered(Candidates(bodies), currentBlock, zoneTop, zoneBottom)
    ensures bodiesInZone == Listed(Candidates(bodies), currentBlock, zoneTop, zoneBottom)
  {
    var candidates := Candidates(bodies);
    coveredArea := 0.0;
    bodiesInZone := [];
    for i := 0 to |candidates|
      invariant coveredArea == Covered(candidates[..i], currentBlock, zoneTop, zoneBottom)
      invariant bodiesInZone == Listed(candidates[..i], currentBlock, zoneTop, zoneBottom)
    {
      var body := candidates[i];
      CoveredListedStep(candidates, i, currentBlock, zoneTop, zoneBottom);
      if IsCurrentBlock(body, currentBlock) {
        continue;
      }
      var inZone := IsBodyInZone(body, zoneTop, zoneBottom);
      if inZone {
        var areaInZone := AreaInZone(body, zoneTop, zoneBottom);
        coveredArea := coveredArea + areaInZone;
        if areaInZone > 0.0 {
          bodiesInZone := bodiesInZone + [body];
        }
      }
    }
    assert candidates[..|candidates|] == candidates;
  }

  // ---------------------------------------------------------------------
  // Clearing

  /**
   * `createBodySlice`: a plain rectangle as wide as the original body's
   * outline, covering [topY, bottomY] under the original's horizontal
   * position and keeping its render options, label and pattern marker (but
   * not its piece type).
   */
  function CreateBodySlice(originalBody: Body, topY: real, bottomY: real, id: nat): (slice: Body)
    ensures slice.id == id && !slice.isStatic && !slice.isSensor
    ensures slice.position == Point(originalBody.position.x, topY + (bottomY - topY) / 2.0)
    ensures slice.render == originalBody.render
    ensures slice.bodyLabel == originalBody.bodyLabel
    ensures slice.hasInternalPattern == originalBody.hasInternalPattern
    ensures slice.tetrominoType == None
    ensures 0.0 <= slice.area
  {
    var width := RightX(originalBody.vertices) - LeftX(originalBody.vertices);
    var height := bottomY - topY;
    Rectangle(id, originalBody.position.x, topY + height / 2.0, width, height, false, false,
              originalBody.render, originalBody.bodyLabel, originalBody.hasInternalPattern)
  }

  /**
   * A slice between `topY` and `bottomY` spans exactly that range
   * vertically and the original's full width horizontally.
   */
  lemma SliceSpansItsRange(originalBody: Body, topY: real, bottomY: real, id: nat)
    requires topY <= bottomY
    ensures HighestY(CreateBodySlice(originalBody, topY, bottomY, id).vertices) == topY
    ensures LowestY(CreateBodySlice(originalBody, topY, bottomY, id).vertices) == bottomY
    ensures RightX(CreateBodySlice(originalBody, topY, bottomY, id).vertices)
            - LeftX(CreateBodySlice(originalBody, topY, bottomY, id).vertices)
            == RightX(originalBody.vertices) - LeftX(originalBody.vertices)
  {
    var width := RightX(originalBody.vertices) - LeftX(originalBody.vertices);
    var height := bottomY - topY;
    var y := topY + height / 2.0;
    MinAtMostMax(Xs(originalBody.vertices));
    var r := Rectangle(id, originalBody.position.x, y, width, height, false, false,
                       originalBody.render, originalBody.bodyLabel, originalBody.hasInternalPattern);
    assert CreateBodySlice(originalBody, topY, bottomY, id) == r;
    RectangleExtent(id, originalBody.position.x, y, width, height, false, false,
                    originalBody.render, originalBody.bodyLabel, originalBody.hasInternalPattern);
    assert HighestY(r.vertices) == y - height / 2.0;
    assert LowestY(r.vertices) == y + height / 2.0;
  }

  /** The remnants `clearZone` makes for one body, numbered from `firstId`. */
  function BodySlices(b: Body, zoneTop: real, zoneBottom: real, firstId: nat): seq<Body>
  {
    var highestY := HighestY(b.vertices);
    var lowestY := LowestY(b.vertices);
    var topPart := if highestY < zoneTop then [CreateBodySlice(b, highestY, zoneTop, firstId)] else [];
    var bottomPart := if lowestY > zoneBottom then [CreateBodySlice(b, zoneBottom, lowestY, firstId + |topPart|)] else [];
    topPart + bottomPart
  }

  /** The remnants for a list of bodies, in order, numbered from `firstId`. */
  function SlicesOf(bodies: seq<Body>, zoneTop: real, zoneBottom: real, firstId: nat): seq<Body>
  {
    if |bodies| == 0 then []
    else
      var before := SlicesOf(bodies[..|bodies| - 1], zoneTop, zoneBottom, firstId);
      before + BodySlices(bodies[|bodies| - 1], zoneTop, zoneBottom, firstId + |before|)
  }

  /** One more body adds its remnants after the earlier ones, numbered on from them. */
  lemma SlicesOfStep(bodies: seq<Body>, i: nat, zoneTop: real, zoneBottom: real, firstId: nat,
                     earlier: seq<Body>, body: Body, nextId: nat, slices: seq<Body>)
    requires i < |bodies| && body == bodies[i] && nextId == firstId + |earlier|
    requires earlier == SlicesOf(bodies[..i], zoneTop, zoneBottom, firstId)
    requires slices == BodySlices(body, zoneTop, zoneBottom, nextId)
    ensures SlicesOf(bodies[..i + 1], zoneTop, zoneBottom, firstId) == earlier + slices
  {
    var p := bodies[..i + 1];
    assert p[..|p| - 1] == bodies[..i];
    assert p[|p| - 1] == bodies[i];
  }

  /** The world after `clearZone`. */
  function Cleared(w: WorldState, zoneIndex: int, bodiesInZone: seq<Body>): WorldState
  {
    var slices := SlicesOf(bodiesInZone, ZoneTop(zoneIndex), ZoneBottom(zoneIndex), w.nextId);
    WorldState(Without(w.bodies, Ids(bodiesInZone)) + slices, w.nextId + |slices|)
  }

  /**
   * One body yields a top remnant exactly when it reaches above the band,
   * covering [highest y, band top], and a bottom remnant exactly when it
   * reaches below, covering [band bottom, lowest y]; a body inside the band
   * leaves nothing.  Remnants are plain movable bodies dressed like the
   * original.
   */
  lemma BodySlicesCases(b: Body, zoneTop: real, zoneBottom: real, firstId: nat)
    requires zoneTop <= zoneBottom
    ensures |BodySlices(b, zoneTop, zoneBottom, firstId)|
            == (if HighestY(b.vertices) < zoneTop then 1 else 0) + (if LowestY(b.vertices) > zoneBottom then 1 else 0)
    ensures HighestY(b.vertices) < zoneTop ==>
              && HighestY(BodySlices(b, zoneTop, zoneBottom, firstId)[0].vertices) == HighestY(b.vertices)
              && LowestY(BodySlices(b, zoneTop, zoneBottom, firstId)[0].vertices) == zoneTop
    ensures LowestY(b.vertices) > zoneBottom ==>
              var slices := BodySlices(b, zoneTop, zoneBottom, firstId);
              && HighestY(slices[|slices| - 1].vertices) == zoneBottom
              && LowestY(slices[|slices| - 1].vertices) == LowestY(b.vertices)
    ensures forall s :: s in BodySlices(b, zoneTop, zoneBottom, firstId) ==>
              && !s.isStatic && !s.isSensor && 0.0 <= s.area
              && s.render == b.render && s.bodyLabel == b.bodyLabel
              && s.hasInternalPattern == b.hasInternalPattern
              && firstId <= s.id < firstId + |BodySlices(b, zoneTop, zoneBottom, firstId)|
    ensures var slices := BodySlices(b, zoneTop, zoneBottom, firstId);
            forall k :: 0 <= k < |slices| ==> slices[k].id == firstId + k
  {
    var highestY, lowestY := HighestY(b.vertices), LowestY(b.vertices);
    var topPart := if highestY < zoneTop then [CreateBodySlice(b, highestY, zoneTop, firstId)] else [];
    var bottomPart := if lowestY > zoneBottom then [CreateBodySlice(b, zoneBottom, lowestY, firstId + |topPart|)] else [];
    assert BodySlices(b, zoneTop, zoneBottom, firstId) == topPart + bottomPart;
    if highestY < zoneTop {
      SliceSpansItsRange(b, highestY, zoneTop, firstId);
    }
    if lowestY > zoneBottom {
      SliceSpansItsRange(b, zoneBottom, lowestY, firstId + |topPart|);
    }
    forall s: Body | s in topPart + bottomPart
      ensures && !s.isStatic && !s.isSensor && 0.0 <= s.area
              && s.render == b.render && s.bodyLabel == b.bodyLabel
              && s.hasInternalPattern == b.hasInternalPattern
              && firstId <= s.id < firstId + |topPart + bottomPart|
    {
      if s in topPart {
        assert s == CreateBodySlice(b, highestY, zoneTop, firstId);
      } else {
        assert s == CreateBodySlice(b, zoneBottom, lowestY, firstId + |topPart|);
      }
    }
  }

  /** Remnant identities lie in a block from `firstId`; at most two remnants per body. */
  lemma {:induction false} SlicesOfFacts(bodies: seq<Body>, zoneTop: real, zoneBottom: real, firstId: nat)
    requires zoneTop <= zoneBottom
    ensures var slices := SlicesOf(bodies, zoneTop, zoneBottom, firstId);
            && |slices| <= 2 * |bodies|
            && forall s :: s in slices ==> firstId <= s.id < firstId + |slices| && 0.0 <= s.area && !s.isStatic && !s.isSensor
  {
    if |bodies| > 0 {
      var before := SlicesOf(bodies[..|bodies| - 1], zoneTop, zoneBottom, firstId);
      SlicesOfFacts(bodies[..|bodies| - 1], zoneTop, zoneBottom, firstId);
      BodySlicesCases(bodies[|bodies| - 1], zoneTop, zoneBottom, firstId + |before|);
    }
  }

  /** The remnants are numbered consecutively from `firstId`, in the order they are made. */
  lemma {:induction false} SlicesNumbered(bodies: seq<Body>, zoneTop: real, zoneBottom: real, firstId: nat)
    requires zoneTop <= zoneBottom
    ensures forall k :: 0 <= k < |SlicesOf(bodies, zoneTop, zoneBottom, firstId)| ==>
              SlicesOf(bodies, zoneTop, zoneBottom, firstId)[k].id == firstId + k
  {
    if |bodies| > 0 {
      var before := SlicesOf(bodies[..|bodies| - 1], zoneTop, zoneBottom, firstId);
      var last := BodySlices(bodies[|bodies| - 1], zoneTop, zoneBottom, firstId + |before|);
      SlicesNumbered(bodies[..|bodies| - 1], zoneTop, zoneBottom, firstId);
      BodySlicesCases(bodies[|bodies| - 1], zoneTop, zoneBottom, firstId + |before|);
      var slices := before + last;
      assert SlicesOf(bodies, zoneTop, zoneBottom, firstId) == slices;
      forall k | 0 <= k < |slices| ensures slices[k].id == firstId + k {
        if k >= |before| {
          assert slices[k] == last[k - |before|];
          assert last[k - |before|].id == firstId + |before| + (k - |before|);
        } else {
          assert slices[k] == before[k];
          assert before[k].id == firstId + k;
        }
      }
    }
  }

  /** Consecutive numbering makes the remnants' identities distinct. */
  lemma SlicesDistinct(bodies: seq<Body>, zoneTop: real, zoneBottom: real, firstId: nat)
    requires zoneTop <= zoneBottom
    ensures DistinctIds(SlicesOf(bodies, zoneTop, zoneBottom, firstId))
  {
    SlicesNumbered(bodies, zoneTop, zoneBottom, firstId);
  }

  /** The top remnant of every listed body that reaches above the band is among the remnants. */
  lemma {:induction false} TopSliceAmongSlices(bodies: seq<Body>, zoneTop: real, zoneBottom: real, firstId: nat, k: nat)
    requires k < |bodies| && HighestY(bodies[k].vertices) < zoneTop
    ensures exists id :: firstId <= id &&
              CreateBodySlice(bodies[k], HighestY(bodies[k].vertices), zoneTop, id) in SlicesOf(bodies, zoneTop, zoneBottom, firstId)
  {
    var prefix := bodies[..|bodies| - 1];
    var before := SlicesOf(prefix, zoneTop, zoneBottom, firstId);
    var last := BodySlices(bodies[|bodies| - 1], zoneTop, zoneBottom, firstId + |before|);
    if k == |bodies| - 1 {
      assert last[0] == CreateBodySlice(bodies[k], HighestY(bodies[k].vertices), zoneTop, firstId + |before|);
      assert last[0] in before + last;
    } else {
      assert prefix[k] == bodies[k];
      TopSliceAmongSlices(prefix, zoneTop, zoneBottom, firstId, k);
      var id :| firstId <= id &&
        CreateBodySlice(bodies[k], HighestY(bodies[k].vertices), zoneTop, id) in before;
    }
  }

  /**
   * Clearing removes exactly the listed bodies: every other body of the world
   * stays, every body afterwards is either such a body or a fresh remnant,
   * and the identity counter moves past the remnants.
   */
  lemma ClearedRemovesExactlyListed(w: WorldState, zoneIndex: int, bodiesInZone: seq<Body>)
    requires IdsBelow(w.bodies, w.nextId)
    ensures var w' := Cleared(w, zoneIndex, bodiesInZone);
            && IdsBelow(w'.bodies, w'.nextId)
            && (forall b :: b in w.bodies ==> (b in w'.bodies <==> b.id !in Ids(bodiesInZone)))
            && (forall b :: b in w'.bodies ==>
                  (b in w.bodies && b.id !in Ids(bodiesInZone)) || w.nextId <= b.id)
            && w.nextId <= w'.nextId <= w.nextId + 2 * |bodiesInZone|
  {
    var slices := SlicesOf(bodiesInZone, ZoneTop(zoneIndex), ZoneBottom(zoneIndex), w.nextId);
    SlicesOfFacts(bodiesInZone, ZoneTop(zoneIndex), ZoneBottom(zoneIndex), w.nextId);
  }

  /**
   * The body of `clearZone`'s loop: remove the body from the world, then
   * create the remnant above the band and the one below it, as far as the
   * body reaches past the band, each with the next identity of the world.
   */
  method CutBody(world: World, body: Body, zoneTop: real, zoneBottom: real) returns (slices: seq<Body>)
    requires world.Valid()
    modifies world
    ensures world.Valid()
    ensures slices == BodySlices(body, zoneTop, zoneBottom, old(world.nextId))
    ensures world.bodies == Without(old(world.bodies), {body.id})
    ensures world.nextId == old(world.nextId) + |slices|
  {
    var highestY := HighestY(body.vertices);
    var lowestY := LowestY(body.vertices);
    world.Remove(body);
    slices := [];
    if highestY < zoneTop {
      var id := world.NewId();
      var topPart := CreateBodySlice(body, highestY, zoneTop, id);
      slices := slices + [topPart];
    }
    if lowestY > zoneBottom {
      var id := world.NewId();
      var bottomPart := CreateBodySlice(body, zoneBottom, lowestY, id);
      slices := slices + [bottomPart];
    }
  }

  /** The loop of `clearZone`: cut every listed body, in order, collecting the remnants. */
  method CutAll(world: World, bodiesInZone: seq<Body>, zoneTop: real, zoneBottom: real) returns (newBodies: seq<Body>)
    requires world.Valid()
    modifies world
    ensures world.Valid()
    ensures world.bodies == Without(old(world.bodies), Ids(bodiesInZone))
    ensures newBodies == SlicesOf(bodiesInZone, zoneTop, zoneBottom, old(world.nextId))
    ensures world.nextId == old(world.nextId) + |newBodies|
  {
    newBodies := [];
    assert Ids(bodiesInZone[..0]) == {};
    WithoutNothing(world.bodies);
    for i := 0 to |bodiesInZone|
      invariant world.Valid()
      invariant world.bodies == Without(old(world.bodies), Ids(bodiesInZone[..i]))
      invariant newBodies == SlicesOf(bodiesInZone[..i], zoneTop, zoneBottom, old(world.nextId))
      invariant world.nextId == old(world.nextId) + |newBodies|
    {
      var body := bodiesInZone[i];
      assert bodiesInZone[..i + 1][..i] == bodiesInZone[..i];
      WithoutTwice(old(world.bodies), Ids(bodiesInZone[..i]), {body.id});
      ghost var firstHere := world.nextId;
      var slices := CutBody(world, body, zoneTop, zoneBottom);
      SlicesOfStep(bodiesInZone, i, zoneTop, zoneBottom, old(world.nextId), newBodies, body, firstHere, slices);
      newBodies := newBodies + slices;
    }
    assert bodiesInZone[..|bodiesInZone|] == bodiesInZone;
  }

  /** `clearZone`: remove each listed body, collect its remnants, add the remnants to the world. */
  method ClearZone(world: World, zoneIndex: int, bodiesInZone: seq<Body>) returns (newBodies: seq<Body>)
    requires world.Valid()
    modifies world
    ensures world.Valid()
    ensures newBodies == SlicesOf(bodiesInZone, ZoneTop(zoneIndex), ZoneBottom(zoneIndex), old(world.nextId))
    ensures world.State() == Cleared(old(world.State()), zoneIndex, bodiesInZone)
  {
    var zoneTop := ZoneTop(zoneIndex);
    var zoneBottom := ZoneBottom(zoneIndex);
    ghost var start := world.State();
    assert IdsBelow(start.bodies, start.nextId);
    newBodies := CutAll(world, bodiesInZone, zoneTop, zoneBottom);
    SlicesOfFacts(bodiesInZone, zoneTop, zoneBottom, start.nextId);
    SlicesDistinct(bodiesInZone, zoneTop, zoneBottom, start.nextId);
    assert forall b :: b in world.bodies ==> b in start.bodies;
    if |newBodies| > 0 {
      world.Add(newBodies);
    }
  }

  // ---------------------------------------------------------------------
  // The scan

  /** What `checkDetectionZones` passes to its callbacks for one band. */
  datatype ZoneReport = ZoneReport(zoneIndex: int, fillRatio: real, bodiesInZone: seq<Body>, full: bool)

  /** The measurement of band `zoneIndex` in the world `w`. */
  function Measure(w: WorldState, currentBlock: Option<Body>, zoneIndex: int): ZoneReport
  {
    var zoneTop := ZoneTop(zoneIndex);
    var zoneBottom := ZoneBottom(zoneIndex);
    var candidates := Candidates(w.bodies);
    var fillRatio := Covered(candidates, currentBlock, zoneTop, zoneBottom) / ZONE_AREA;
    ZoneReport(zoneIndex, fillRatio, Listed(candidates, currentBlock, zoneTop, zoneBottom),
               fillRatio >= DETECTION_ZONE_FILL_THRESHOLD)
  }

  /** One iteration of the scan: measure the band, then clear it if asked to and full. */
  function ZoneStep(w: WorldState, currentBlock: Option<Body>, clearFull: bool, zoneIndex: int): (ZoneReport, WorldState)
  {
    var report := Measure(w, currentBlock, zoneIndex);
    (report, if clearFull && report.full then Cleared(w, zoneIndex, report.bodiesInZone) else w)
  }

  /**
   * The first `n` iterations of the scan, which visits bands
   * DETECTION_ZONES_COUNT - 1 down to 0; every iteration measures the world
   * as the previous iterations left it.
   */
  function Scan(w: WorldState, currentBlock: Option<Body>, clearFull: bool, n: nat): (seq<ZoneReport>, WorldState)
    requires n <= DETECTION_ZONES_COUNT
  {
    if n == 0 then ([], w)
    else
      var (reports, before) := Scan(w, currentBlock, clearFull, n - 1);
      var (report, after) := ZoneStep(before, currentBlock, clearFull, DETECTION_ZONES_COUNT - n);
      (reports + [report], after)
  }

  /** One more iteration of the scan: the next band's step applied to the world the earlier ones left. */
  lemma ScanStep(w: WorldState, currentBlock: Option<Body>, clearFull: bool, n: nat,
                 reports: seq<ZoneReport>, before: WorldState, report: ZoneReport, after: WorldState)
    requires 0 < n <= DETECTION_ZONES_COUNT
    requires (reports, before) == Scan(w, currentBlock, clearFull, n - 1)
    requires (report, after) == ZoneStep(before, currentBlock, clearFull, DETECTION_ZONES_COUNT - n)
    ensures Scan(w, currentBlock, clearFull, n) == (reports + [report], after)
  {
  }

  /**
   * The scan visits every band exactly once, bottom band first; a band is
   * reported full exactly when its ratio reaches the threshold; and the
   * world's identity discipline is kept.
   */
  lemma {:induction false} ScanVisitsEveryZoneOnce(w: WorldState, currentBlock: Option<Body>, clearFull: bool, n: nat)
    requires n <= DETECTION_ZONES_COUNT
    requires IdsBelow(w.bodies, w.nextId)
    ensures var scan := Scan(w, currentBlock, clearFull, n);
            && |scan.0| == n
            && (forall j :: 0 <= j < n ==> scan.0[j].zoneIndex == DETECTION_ZONES_COUNT - 1 - j)
            && (forall j :: 0 <= j < n ==> (scan.0[j].full <==> scan.0[j].fillRatio >= DETECTION_ZONE_FILL_THRESHOLD))
            && IdsBelow(scan.1.bodies, scan.1.nextId)
            && w.nextId <= scan.1.nextId
  {
    if n > 0 {
      ScanVisitsEveryZoneOnce(w, currentBlock, clearFull, n - 1);
      var prev := Scan(w, currentBlock, clearFull, n - 1);
      var step := ZoneStep(prev.1, currentBlock, clearFull, DETECTION_ZONES_COUNT - n);
      ZoneStepKeepsIds(prev.1, currentBlock, clearFull, DETECTION_ZONES_COUNT - n);
      ScanStep(w, currentBlock, clearFull, n, prev.0, prev.1, step.0, step.1);
      ReportsAppend(prev.0, step.0, n);
    }
  }

  /** Appending the report of band DETECTION_ZONES_COUNT - n to the reports of the bands below it. */
  lemma ReportsAppend(reports: seq<ZoneReport>, report: ZoneReport, n: nat)
    requires 0 < n && |reports| == n - 1
    requires forall j :: 0 <= j < n - 1 ==> reports[j].zoneIndex == DETECTION_ZONES_COUNT - 1 - j
    requires forall j :: 0 <= j < n - 1 ==> (reports[j].full <==> reports[j].fillRatio >= DETECTION_ZONE_FILL_THRESHOLD)
    requires report.zoneIndex == DETECTION_ZONES_COUNT - n
    requires report.full <==> report.fillRatio >= DETECTION_ZONE_FILL_THRESHOLD
    ensures var all := reports + [report];
            && |all| == n
            && (forall j :: 0 <= j < n ==> all[j].zoneIndex == DETECTION_ZONES_COUNT - 1 - j)
            && (forall j :: 0 <= j < n ==> (all[j].full <==> all[j].fillRatio >= DETECTION_ZONE_FILL_THRESHOLD))
  {
    var all := reports + [report];
    forall j | 0 <= j < n
      ensures all[j].zoneIndex == DETECTION_ZONES_COUNT - 1 - j
      ensures all[j].full <==> all[j].fillRatio >= DETECTION_ZONE_FILL_THRESHOLD
    {
      if j < n - 1 {
        assert all[j] == reports[j];
      }
    }
  }

  /** One band's step reports that band, says full exactly at the threshold, and keeps identities below the counter. */
  lemma ZoneStepKeepsIds(w: WorldState, currentBlock: Option<Body>, clearFull: bool, zoneIndex: int)
    requires IdsBelow(w.bodies, w.nextId)
    ensures var (report, after) := ZoneStep(w, currentBlock, clearFull, zoneIndex);
            && report.zoneIndex == zoneIndex
            && (report.full <==> report.fillRatio >= DETECTION_ZONE_FILL_THRESHOLD)
            && IdsBelow(after.bodies, after.nextId)
            && w.nextId <= after.nextId
  {
    ClearedRemovesExactlyListed(w, zoneIndex, Measure(w, currentBlock, zoneIndex).bodiesInZone);
  }

  ghost predicate NonNegativeAreas(bodies: seq<Body>)
  {
    forall b :: b in bodies ==> 0.0 <= b.area
  }

  /** Clearing keeps every area non-negative. */
  lemma ClearedKeepsAreas(w: WorldState, zoneIndex: int, bodiesInZone: seq<Body>)
    requires NonNegativeAreas(w.bodies)
    ensures NonNegativeAreas(Cleared(w, zoneIndex, bodiesInZone).bodies)
  {
    ZonesTileThePlayArea(0);
    SlicesOfFacts(bodiesInZone, ZoneTop(zoneIndex), ZoneBottom(zoneIndex), w.nextId);
  }

  /** With non-negative body areas, every reported fill ratio is non-negative. */
  lemma {:induction false} ScanRatiosNonNegative(w: WorldState, currentBlock: Option<Body>, clearFull: bool, n: nat)
    requires n <= DETECTION_ZONES_COUNT
    requires NonNegativeAreas(w.bodies)
    ensures var (reports, after) := Scan(w, currentBlock, clearFull, n);
            && NonNegativeAreas(after.bodies)
            && forall j :: 0 <= j < |reports| ==> 0.0 <= reports[j].fillRatio
  {
    if n > 0 {
      ScanRatiosNonNegative(w, currentBlock, clearFull, n - 1);
      var (reports, before) := Scan(w, currentBlock, clearFull, n - 1);
      var zoneIndex := DETECTION_ZONES_COUNT - n;
      ZonesTileThePlayArea(zoneIndex);
      CoveredNonNegative(Candidates(before.bodies), currentBlock, ZoneTop(zoneIndex), ZoneBottom(zoneIndex));
      ClearedKeepsAreas(before, zoneIndex, Measure(before, currentBlock, zoneIndex).bodiesInZone);
    }
  }

  /**
   * Remnants of a cleared band are measured by the band above it in the same
   * pass: when band z clears and a listed body reaches above it, its top
   * remnant is a candidate of the world that band z - 1 is measured in, passes
   * that band's membership test, and adds its estimate to that band's covered
   * area; when the body's top lies within band z - 1 the remnant counts there
   * in full.
   */
  lemma TopSliceCountedInZoneAbove(w: WorldState, currentBlock: Option<Body>, zoneIndex: int, k: nat)
    requires 0 < zoneIndex < DETECTION_ZONES_COUNT
    requires IdsBelow(w.bodies, w.nextId) && NonNegativeAreas(w.bodies)
    requires currentBlock.Some? ==> currentBlock.value.id < w.nextId
    requires Measure(w, currentBlock, zoneIndex).full
    requires k < |Measure(w, currentBlock, zoneIndex).bodiesInZone|
    requires HighestY(Measure(w, currentBlock, zoneIndex).bodiesInZone[k].vertices) < ZoneTop(zoneIndex)
    ensures var b := Measure(w, currentBlock, zoneIndex).bodiesInZone[k];
            var after := ZoneStep(w, currentBlock, true, zoneIndex).1;
            exists s ::
              && s in Candidates(after.bodies)
              && !IsCurrentBlock(s, currentBlock)
              && HighestY(s.vertices) == HighestY(b.vertices)
              && LowestY(s.vertices) == ZoneTop(zoneIndex)
              && InZone(s, ZoneTop(zoneIndex - 1), ZoneBottom(zoneIndex - 1))
              && Contribution(s, currentBlock, ZoneTop(zoneIndex - 1), ZoneBottom(zoneIndex - 1))
                 == AreaInZone(s, ZoneTop(zoneIndex - 1), ZoneBottom(zoneIndex - 1))
              && Contribution(s, currentBlock, ZoneTop(zoneIndex - 1), ZoneBottom(zoneIndex - 1))
                 <= Covered(Candidates(after.bodies), currentBlock, ZoneTop(zoneIndex - 1), ZoneBottom(zoneIndex - 1))
              && (ZoneTop(zoneIndex - 1) <= HighestY(b.vertices) ==>
                    Contribution(s, currentBlock, ZoneTop(zoneIndex - 1), ZoneBottom(zoneIndex - 1)) == s.area)
  {
    var listed := Measure(w, currentBlock, zoneIndex).bodiesInZone;
    var b := listed[k];
    var zoneTop, zoneBottom := ZoneTop(zoneIndex), ZoneBottom(zoneIndex);
    var aboveTop, aboveBottom := ZoneTop(zoneIndex - 1), ZoneBottom(zoneIndex - 1);
    ZonesTileThePlayArea(zoneIndex - 1);
    var after := Cleared(w, zoneIndex, listed);
    assert after == ZoneStep(w, currentBlock, true, zoneIndex).1;
    var slices := SlicesOf(listed, zoneTop, zoneBottom, w.nextId);
    TopSliceAmongSlices(listed, zoneTop, zoneBottom, w.nextId, k);
    var id :| w.nextId <= id && CreateBodySlice(b, HighestY(b.vertices), zoneTop, id) in slices;
    var s := CreateBodySlice(b, HighestY(b.vertices), zoneTop, id);
    assert s in after.bodies;
    assert !IsCurrentBlock(s, currentBlock);
    SliceSpansItsRange(b, HighestY(b.vertices), zoneTop, id);
    assert aboveBottom == zoneTop;
    ExtremesAreVertices(s.vertices);
    var v :| 0 <= v < |s.vertices| && s.vertices[v].y == LowestY(s.vertices);
    assert aboveTop <= s.vertices[v].y <= aboveBottom;
    assert InZone(s, aboveTop, aboveBottom);
    ClearedKeepsAreas(w, zoneIndex, listed);
    AreaInZoneBounds(s, aboveTop, aboveBottom);
    CoveredAtLeastMember(Candidates(after.bodies), currentBlock, aboveTop, aboveBottom, s);
    assert s in Candidates(after.bodies);
    assert Contribution(s, currentBlock, aboveTop, aboveBottom) == AreaInZone(s, aboveTop, aboveBottom);
  }

  /**
   * The measuring half of one iteration of `checkDetectionZones`: the band's
   * edges and area, the covered area and list, and the ratio.
   */
  method MeasureBand(world: World, currentBlock: Option<Body>, zoneIndex: int) returns (report: ZoneReport)
    ensures report == Measure(world.State(), currentBlock, zoneIndex)
  {
    var zoneY := PLAY_AREA_Y_OFFSET + zoneIndex as real * DETECTION_ZONE_HEIGHT;
    var zoneTop := zoneY;
    var zoneBottom := zoneY + DETECTION_ZONE_HEIGHT;
    var zoneWidth := PLAY_AREA_WIDTH;
    var zoneArea := zoneWidth * DETECTION_ZONE_HEIGHT;
    var coveredArea, bodiesInZone := MeasureZone(world.bodies, currentBlock, zoneTop, zoneBottom);
    var fillRatio := coveredArea / zoneArea;
    report := ZoneReport(zoneIndex, fillRatio, bodiesInZone, fillRatio >= DETECTION_ZONE_FILL_THRESHOLD);
  }

  // ---------------------------------------------------------------------
  // Indicator state

  /** The per-band ratios and the displayed progress widths (percentages). */
  datatype Progress = Progress(zoneFillRatios: seq<real>, widths: seq<real>)

  /** The displayed width for a ratio: the ratio as a percentage, clamped to [0, 100]. */
  function Percentage(fillRatio: real): (p: real)
    ensures 0.0 <= p <= 100.0
    ensures 0.0 <= fillRatio <= 1.0 ==> p == fillRatio * 100.0
    ensures fillRatio < 0.0 ==> p == 0.0
    ensures 1.0 < fillRatio ==> p == 100.0
  {
    var scaled := if fillRatio * 100.0 >= 0.0 then fillRatio * 100.0 else 0.0;
    if scaled <= 100.0 then scaled else 100.0
  }

  /**
   * `updateProgressBar`: an index outside the bars changes nothing;
   * otherwise only that band's stored ratio (unclamped) and displayed width
   * (clamped) change.
   */
  function Updated(p: Progress, zoneIndex: int, fillRatio: real): (q: Progress)
    requires |p.zoneFillRatios| == |p.widths|
    ensures |q.zoneFillRatios| == |q.widths| == |p.widths|
    ensures zoneIndex < 0 || zoneIndex >= |p.widths| ==> q == p
    ensures 0 <= zoneIndex < |p.widths| ==>
              && q.zoneFillRatios[zoneIndex] == fillRatio
              && q.widths[zoneIndex] == Percentage(fillRatio)
    ensures forall i :: 0 <= i < |p.widths| && i != zoneIndex ==>
              q.zoneFillRatios[i] == p.zoneFillRatios[i] && q.widths[i] == p.widths[i]
  {
    if zoneIndex < 0 || zoneIndex >= |p.widths| then p
    else Progress(p.zoneFillRatios[zoneIndex := fillRatio], p.widths[zoneIndex := Percentage(fillRatio)])
  }

  /** The indicator state after the progress callback has seen `reports`, in order. */
  function AfterReports(p: Progress, reports: seq<ZoneReport>): (q: Progress)
    requires |p.zoneFillRatios| == |p.widths|
    ensures |q.zoneFillRatios| == |q.widths| == |p.widths|
  {
    if |reports| == 0 then p
    else
      var last := reports[|reports| - 1];
      Updated(AfterReports(p, reports[..|reports| - 1]), last.zoneIndex, last.fillRatio)
  }

  /** One more progress callback: the indicator state is updated with the new report. */
  lemma AfterReportsStep(p: Progress, reports: seq<ZoneReport>, report: ZoneReport)
    requires |p.zoneFillRatios| == |p.widths|
    ensures AfterReports(p, reports + [report]) == Updated(AfterReports(p, reports), report.zoneIndex, report.fillRatio)
  {
    assert (reports + [report])[..|reports|] == reports;
  }

  /**
   * After a whole scan with the progress callback, with one bar per band,
   * every band's stored ratio is the ratio measured for it in that scan and
   * its width that ratio's clamped percentage.
   */
  lemma {:induction false} ProgressAfterScan(p: Progress, reports: seq<ZoneReport>, i: int)
    requires |p.zoneFillRatios| == |p.widths| == DETECTION_ZONES_COUNT
    requires |reports| <= DETECTION_ZONES_COUNT
    requires forall j :: 0 <= j < |reports| ==> reports[j].zoneIndex == DETECTION_ZONES_COUNT - 1 - j
    requires 0 <= i < DETECTION_ZONES_COUNT
    ensures var q := AfterReports(p, reports);
            if i >= DETECTION_ZONES_COUNT - |reports| then
              && q.zoneFillRatios[i] == reports[DETECTION_ZONES_COUNT - 1 - i].fillRatio
              && q.widths[i] == Percentage(reports[DETECTION_ZONES_COUNT - 1 - i].fillRatio)
            else q.zoneFillRatios[i] == p.zoneFillRatios[i] && q.widths[i] == p.widths[i]
  {
    if |reports| > 0 {
      var prefix := reports[..|reports| - 1];
      ProgressAfterScan(p, prefix, i);
    }
  }

  /** The game's zone-detection object: stripe bodies and indicator state. */
  class ZoneDetector {
    var stripeZones: seq<Body>
    var zoneFillRatios: seq<real>
    var progressWidths: seq<real>

    ghost predicate Valid()
      reads this
    {
      && |zoneFillRatios| == |progressWidths|
      && forall i :: 0 <= i < |progressWidths| ==> 0.0 <= progressWidths[i] <= 100.0
    }

    function ProgressState(): Progress
      reads this
    {
      Progress(zoneFillRatios, progressWidths)
    }

    /** The state before initialisation: no stripes, no bars, no ratios. */
    constructor ()
      ensures Valid() && stripeZones == [] && zoneFillRatios == [] && progressWidths == []
    {
      stripeZones := [];
      zoneFillRatios := [];
      progressWidths := [];
    }

    /** `initEnvironment`: stripes into the world, then fresh indicators. */
    method InitEnvironment(world: World, canvasWidth: real)
      requires world.Valid()
      modifies this, world
      ensures Valid() && world.Valid()
      ensures stripeZones == Stripes(canvasWidth, old(world.nextId))
      ensures world.bodies == old(world.bodies) + stripeZones
      ensures world.nextId == old(world.nextId) + DETECTION_ZONES_COUNT
      ensures zoneFillRatios == seq(DETECTION_ZONES_COUNT, _ => 0.0)
      ensures progressWidths == seq(DETECTION_ZONES_COUNT, _ => 0.0)
    {
      CreateBackgroundStripes(world, canvasWidth);
      CreateProgressBars();
    }

    /** `createBackgroundStripes`: one stripe body per band, added to the world and remembered. */
    method CreateBackgroundStripes(world: World, canvasWidth: real)
      requires world.Valid()
      modifies this, world
      ensures world.Valid()
      ensures stripeZones == Stripes(canvasWidth, old(world.nextId))
      ensures world.bodies == old(world.bodies) + stripeZones
      ensures world.nextId == old(world.nextId) + DETECTION_ZONES_COUNT
      ensures zoneFillRatios == old(zoneFillRatios) && progressWidths == old(progressWidths)
    {
      stripeZones := [];
      for i := 0 to DETECTION_ZONES_COUNT
        invariant world.Valid()
        invariant world.nextId == old(world.nextId) + i
        invariant |stripeZones| == i
        invariant forall j :: 0 <= j < i ==> stripeZones[j] == Stripe(j, canvasWidth, old(world.nextId) + j)
        invariant world.bodies == old(world.bodies) + stripeZones
        invariant zoneFillRatios == old(zoneFillRatios) && progressWidths == old(progressWidths)
      {
        var id := world.NewId();
        var stripe := Stripe(i, canvasWidth, id);
        world.Add([stripe]);
        stripeZones := stripeZones + [stripe];
      }
    }

    /** `createProgressBars` without the page elements: every ratio and width back to 0. */
    method CreateProgressBars()
      modifies this
      ensures Valid()
      ensures zoneFillRatios == seq(DETECTION_ZONES_COUNT, _ => 0.0)
      ensures progressWidths == seq(DETECTION_ZONES_COUNT, _ => 0.0)
      ensures stripeZones == old(stripeZones)
    {
      progressWidths := [];
      zoneFillRatios := seq(DETECTION_ZONES_COUNT, _ => 0.0);
      for i := 0 to DETECTION_ZONES_COUNT
        invariant |progressWidths| == i
        invariant forall j :: 0 <= j < i ==> progressWidths[j] == 0.0
        invariant zoneFillRatios == seq(DETECTION_ZONES_COUNT, _ => 0.0)
        invariant stripeZones == old(stripeZones)
      {
        progressWidths := progressWidths + [0.0];
      }
    }

    /** `updateProgressBar`. */
    method UpdateProgressBar(zoneIndex: int, fillRatio: real)
      requires Valid()
      modifies this
      ensures Valid()
      ensures ProgressState() == Updated(old(ProgressState()), zoneIndex, fillRatio)
      ensures stripeZones == old(stripeZones)
    {
      if zoneIndex < 0 || zoneIndex >= |progressWidths| {
        return;
      }
      zoneFillRatios := zoneFillRatios[zoneIndex := fillRatio];
      var percentage := Percentage(fillRatio);
      progressWidths := progressWidths[zoneIndex := percentage];
    }

    /**
     * One iteration of `checkDetectionZones`: measure band `zoneIndex`, pass
     * the ratio to the progress callback when there is one, and clear the
     * band when it is full and there is a clear callback.
     */
    method CheckZone(world: World, currentBlock: Option<Body>, reportProgress: bool, clearFull: bool, zoneIndex: int)
      returns (report: ZoneReport)
      requires Valid() && world.Valid()
      modifies this, world
      ensures Valid() && world.Valid()
      ensures (report, world.State()) == ZoneStep(old(world.State()), currentBlock, clearFull, zoneIndex)
      ensures ProgressState() == if reportProgress then Updated(old(ProgressState()), zoneIndex, report.fillRatio) else old(ProgressState())
      ensures stripeZones == old(stripeZones)
    {
      report := MeasureBand(world, currentBlock, zoneIndex);
      if reportProgress {
        UpdateProgressBar(zoneIndex, report.fillRatio);
      }
      if report.fillRatio >= DETECTION_ZONE_FILL_THRESHOLD && clearFull {
        var slices := ClearZone(world, zoneIndex, report.bodiesInZone);
      }
    }

    /**
     * `checkDetectionZones`.  The progress callback, when given, is this
     * object's `updateProgressBar`; the clear callback, when given, is
     * `clearZone` on the same world.  The reports are the arguments the
     * callbacks receive, in order.
     */
    method CheckDetectionZones(world: World, currentBlock: Option<Body>, reportProgress: bool, clearFull: bool)
      returns (reports: seq<ZoneReport>)
      requires Valid() && world.Valid()
      modifies this, world
      ensures Valid() && world.Valid()
      ensures (reports, world.State()) == Scan(old(world.State()), currentBlock, clearFull, DETECTION_ZONES_COUNT)
      ensures ProgressState() == if reportProgress then AfterReports(old(ProgressState()), reports) else old(ProgressState())
      ensures stripeZones == old(stripeZones)
    {
      ghost var start := world.State();
      reports := [];
      var zoneIndex: int := DETECTION_ZONES_COUNT - 1;
      while zoneIndex >= 0
        invariant -1 <= zoneIndex < DETECTION_ZONES_COUNT
        invariant Valid() && world.Valid()
        invariant (reports, world.State()) == Scan(start, currentBlock, clearFull, DETECTION_ZONES_COUNT - 1 - zoneIndex)
        invariant ProgressState() == if reportProgress then AfterReports(old(ProgressState()), reports) else old(ProgressState())
        invariant stripeZones == old(stripeZones)
        decreases zoneIndex
      {
        reports := ScanNext(world, currentBlock, reportProgress, clearFull, zoneIndex, start, old(ProgressState()), reports);
        zoneIndex := zoneIndex - 1;
      }
    }

    /**
     * One iteration of the loop in `checkDetectionZones`: band `zoneIndex`
     * is checked in the world the iterations below it left, and its report
     * is passed to the callbacks after theirs.
     */
    method ScanNext(world: World, currentBlock: Option<Body>, reportProgress: bool, clearFull: bool, zoneIndex: int,
                    ghost start: WorldState, ghost startProgress: Progress, reports: seq<ZoneReport>)
      returns (more: seq<ZoneReport>)
      requires 0 <= zoneIndex < DETECTION_ZONES_COUNT
      requires Valid() && world.Valid() && |startProgress.zoneFillRatios| == |startProgress.widths|
      requires (reports, world.State()) == Scan(start, currentBlock, clearFull, DETECTION_ZONES_COUNT - 1 - zoneIndex)
      requires ProgressState() == if reportProgress then AfterReports(startProgress, reports) else startProgress
      modifies this, world
      ensures Valid() && world.Valid()
      ensures (more, world.State()) == Scan(start, currentBlock, clearFull, DETECTION_ZONES_COUNT - zoneIndex)
      ensures ProgressState() == if reportProgress then AfterReports(startProgress, more) else startProgress
      ensures stripeZones == old(stripeZones)
    {
      ghost var before := world.State();
      var report := CheckZone(world, currentBlock, reportProgress, clearFull, zoneIndex);
      assert report.zoneIndex == zoneIndex;
      ScanStep(start, currentBlock, clearFull, DETECTION_ZONES_COUNT - zoneIndex, reports, before, report, world.State());
      AfterReportsStep(startProgress, reports, report);
      more := reports + [report];
    }
  }
}
