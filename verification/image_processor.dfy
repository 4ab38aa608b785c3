/** The integer geometry of `ImageProcessor.addTransparentRoundCorners`:
    the choice of canvas size, the destination rectangle the source is
    stretched into, and the arcs of the rounded clip path and of the border
    path. Pixels, pens and rasterisation are not modelled. */
module ImageProcessor {
  import opened Int32

  /** Width and height in pixels (a `Tuple<int, int>` in the source). */
  datatype Size = Size(width: Int32, height: Int32)

  /** `System.Drawing.Rectangle`: top-left corner and extent. */
  datatype Rect = Rect(x: Int32, y: Int32, width: Int32, height: Int32)

  /** One `GraphicsPath.AddArc` call: the arc is inscribed in the box
      `(x, y, width, height)`, starts at `startDeg` and runs `sweepDeg`
      degrees clockwise (y grows downwards). */
  datatype Arc = Arc(x: Int32, y: Int32, width: Int32, height: Int32, startDeg: int, sweepDeg: int)

  /** Everything `addTransparentRoundCorners` derives from its inputs before
      drawing. */
  datatype CornerGeometry = CornerGeometry(canvas: Size, destination: Rect, clip: seq<Arc>, border: seq<Arc>)

  /** The landscape canvas, `WIDTH` x `HEIGHT`. */
  const Wide: Size := Size(1600, 1280)
  /** The portrait canvas. */
  const Tall: Size := Size(1280, 1600)

  function Min(a: int, b: int): int {
    if a <= b then a else b
  }

  /** The local function `swap`: exchanges the two components. */
  function Swap(s: Size): (r: Size)
    ensures r.width == s.height && r.height == s.width
  {
    Size(s.height, s.width)
  }

  lemma SwapInvolutive(s: Size)
    ensures Swap(Swap(s)) == s
    ensures Swap(s) == s <==> s.width == s.height
  {
  }

  /** The local function `stretch`: the canvas depends only on whether the
      source is portrait (strictly taller than wide); it never preserves the
      source's aspect ratio. */
  function Stretch(currentWidth: Int32, currentHeight: Int32): (r: Size)
    ensures r == Wide || r == Tall
    ensures r == Tall <==> currentWidth < currentHeight
    ensures r.width > 0 && r.height > 0
  {
    if currentWidth < currentHeight then Swap(Wide) else Wide
  }

  /** The portrait canvas is the landscape canvas transposed. */
  lemma TallIsSwappedWide()
    ensures Tall == Swap(Wide) && Wide == Swap(Tall)
    ensures Tall != Wide
  {
  }

  /** Sources of the same orientation class get the same canvas, and sources
      of different classes get different canvases. */
  lemma StretchDependsOnlyOnOrientation(w1: Int32, h1: Int32, w2: Int32, h2: Int32)
    ensures Stretch(w1, h1) == Stretch(w2, h2) <==> (w1 < h1 <==> w2 < h2)
  {
  }

  /** `cornerRadius *= 2`: the radius becomes the arc box's side, with C#
      unchecked wrap-around. */
  function Diameter(cornerRadius: Int32): (d: Int32)
    ensures -0x4000_0000 <= cornerRadius < 0x4000_0000 ==> d == 2 * cornerRadius
  {
    Wrap(cornerRadius * 2)
  }

  /** Out of range, the diameter is still twice the radius modulo 2^32. */
  lemma DiameterWraps(cornerRadius: Int32)
    ensures (2 * cornerRadius - Diameter(cornerRadius)) % Modulus == 0
    ensures cornerRadius == 0x4000_0000 ==> Diameter(cornerRadius) == -0x8000_0000
  {
    WrapIsCongruent(cornerRadius * 2, Diameter(cornerRadius));
  }

  /** The four clip arcs, one `d` x `d` box per canvas corner, in the order
      top-left, top-right, bottom-right, bottom-left. Coordinates are
      computed in 32-bit arithmetic as in the source. */
  function ClipArcs(canvas: Size, d: Int32): (arcs: seq<Arc>)
    ensures |arcs| == 4
    ensures forall i :: 0 <= i < 4 ==> arcs[i].width == d && arcs[i].height == d && arcs[i].sweepDeg == 90
    ensures arcs[0].startDeg == 180 && arcs[1].startDeg == 270
    ensures arcs[2].startDeg == 0 && arcs[3].startDeg == 90
    ensures arcs[0].x == 0 && arcs[0].y == 0 && arcs[1].y == 0 && arcs[3].x == 0
    ensures arcs[1].x == arcs[2].x && arcs[2].y == arcs[3].y
    ensures InRange(canvas.width - d) ==> arcs[1].x == canvas.width - d
    ensures InRange(canvas.height - d) ==> arcs[2].y == canvas.height - d
  {
    // `0 + roundedImage.Width - cornerRadius`: only the subtraction can wrap
    var right := Wrap(canvas.width - d);
    var bottom := Wrap(canvas.height - d);
    [ TopLeftArc(d),
      Arc(right, 0, d, d, 270, 90),
      Arc(right, bottom, d, d, 0, 90),
      Arc(0, bottom, d, d, 90, 90) ]
  }

  /** The top-left corner arc, `AddArc(0, 0, d, d, 180, 90)`. */
  function TopLeftArc(d: Int32): Arc {
    Arc(0, 0, d, d, 180, 90)
  }

  /** The border path: a clone of the clip path with the top-left arc added
      once more, so the first corner is traced twice. */
  function BorderArcs(canvas: Size, d: Int32): (border: seq<Arc>)
    ensures |border| == 5
    ensures border[..4] == ClipArcs(canvas, d) && border[4] == border[0]
  {
    ClipArcs(canvas, d) + [TopLeftArc(d)]
  }

  /** The geometry of `addTransparentRoundCorners(image, cornerRadius)`. */
  function AddTransparentRoundCorners(image: Size, cornerRadius: Int32): (g: CornerGeometry)
    ensures g.canvas == Wide || g.canvas == Tall
    ensures g.canvas == Tall <==> image.width < image.height
    ensures g.destination == Rect(0, 0, g.canvas.width, g.canvas.height)
    ensures |g.clip| == 4 && |g.border| == 5
    ensures g.border[..4] == g.clip && g.border[4] == g.border[0]
    ensures g.clip == ClipArcs(g.canvas, Diameter(cornerRadius))
    ensures 0 < cornerRadius && 2 * cornerRadius <= Min(g.canvas.width, g.canvas.height) ==>
      forall i :: 0 <= i < 4 ==> ArcInside(g.clip[i], g.destination)
  {
    var d := Diameter(cornerRadius);
    var imageSize := Stretch(image.width, image.height);
    var destination := Rect(0, 0, imageSize.width, imageSize.height);
    // the new bitmap has exactly the selected size
    var roundedImage := imageSize;
    var clip := ClipArcs(roundedImage, d);
    var border := BorderArcs(roundedImage, d);
    CornerGeometry(imageSize, destination, clip, border)
  }

  /** The arc's box lies within the rectangle. */
  predicate ArcInside(a: Arc, r: Rect) {
    && r.x <= a.x && a.x + a.width <= r.x + r.width
    && r.y <= a.y && a.y + a.height <= r.y + r.height
  }

  /** Every clip box lies inside the canvas once the diameter is positive and
      fits the shorter side. */
  lemma ClipArcsInsideCanvas(canvas: Size, cornerRadius: Int32)
    requires 0 < 2 * cornerRadius <= Min(canvas.width, canvas.height)
    ensures forall i :: 0 <= i < 4 ==>
      ArcInside(ClipArcs(canvas, Diameter(cornerRadius))[i], Rect(0, 0, canvas.width, canvas.height))
  {
  }

  /** Sum of the sweeps of a path's arcs, in degrees. */
  function TotalSweep(arcs: seq<Arc>): int {
    if arcs == [] then 0 else arcs[0].sweepDeg + TotalSweep(arcs[1..])
  }

  lemma {:induction false} TotalSweepConcat(a: seq<Arc>, b: seq<Arc>)
    ensures TotalSweep(a + b) == TotalSweep(a) + TotalSweep(b)
  {
    if a == [] {
      assert a + b == b;
    } else {
      assert (a + b)[1..] == a[1..] + b;
      TotalSweepConcat(a[1..], b);
    }
  }

  /** The clip path turns exactly once; the border path turns a quarter
      more, because its first corner is repeated. */
  lemma SweepsAddUp(canvas: Size, d: Int32)
    ensures TotalSweep(ClipArcs(canvas, d)) == 360
    ensures TotalSweep(BorderArcs(canvas, d)) == 450
  {
    var clip := ClipArcs(canvas, d);
    assert BorderArcs(canvas, d) == clip + [clip[0]];
    assert clip == [clip[0]] + [clip[1]] + [clip[2]] + [clip[3]];
    TotalSweepConcat([clip[0]] + [clip[1]] + [clip[2]], [clip[3]]);
    TotalSweepConcat([clip[0]] + [clip[1]], [clip[2]]);
    TotalSweepConcat([clip[0]], [clip[1]]);
    TotalSweepConcat(clip, [clip[0]]);
  }

  /** The index after `i` in a cyclic path of `n` arcs. */
  function NextIndex(i: nat, n: nat): nat
    requires i < n
  {
    if i + 1 < n then i + 1 else 0
  }

  /** Each arc ends at the angle where the next one (cyclically) starts. */
  predicate HeadingsClose(arcs: seq<Arc>) {
    forall i :: 0 <= i < |arcs| ==>
      (arcs[i].startDeg + arcs[i].sweepDeg) % 360 == arcs[NextIndex(i, |arcs|)].startDeg % 360
  }

  lemma ClipHeadingsClose(canvas: Size, d: Int32)
    ensures HeadingsClose(ClipArcs(canvas, d))
  {
    var clip := ClipArcs(canvas, d);
    forall i | 0 <= i < 4
      ensures (clip[i].startDeg + clip[i].sweepDeg) % 360 == clip[NextIndex(i, 4)].startDeg % 360
    {
      if i == 0 {
        assert (180 + 90) % 360 == 270 % 360;
      } else if i == 1 {
        assert (270 + 90) % 360 == 0 % 360;
      } else if i == 2 {
        assert (0 + 90) % 360 == 90 % 360;
      } else {
        assert (90 + 90) % 360 == 180 % 360;
      }
    }
  }

  /** The border is stroked as an open figure, and the repeated first arc
      makes it end a quarter turn past the heading it started with: its last
      arc does not lead back into its first. */
  lemma BorderHeadingsOvershoot(canvas: Size, d: Int32)
    ensures !HeadingsClose(BorderArcs(canvas, d))
  {
    var border := BorderArcs(canvas, d);
    assert border[4] == border[0] && border[NextIndex(4, 5)] == border[0];
    assert (180 + 90) % 360 != 180 % 360;
  }

  /** A point of the plane with both coordinates doubled, so that the
      midpoint of an odd-sized box side is still an integer. */
  datatype Point2 = Point2(x2: int, y2: int)

  /** The point at `angle` (a multiple of 90, clockwise from the positive x
      axis) on the ellipse inscribed in the arc's box. */
  function PointAt(a: Arc, angle: int): (p: Point2)
    requires angle % 90 == 0
  {
    var cx2, cy2 := 2 * a.x + a.width, 2 * a.y + a.height;
    match angle % 360
    case 0 => Point2(2 * (a.x + a.width), cy2)
    case 90 => Point2(cx2, 2 * (a.y + a.height))
    case 180 => Point2(2 * a.x, cy2)
    case _ => Point2(cx2, 2 * a.y)
  }

  function StartPoint(a: Arc): Point2
    requires a.startDeg % 90 == 0
  {
    PointAt(a, a.startDeg)
  }

  function EndPoint(a: Arc): Point2
    requires (a.startDeg + a.sweepDeg) % 90 == 0
  {
    PointAt(a, a.startDeg + a.sweepDeg)
  }

  /** The straight segments `GraphicsPath` inserts between consecutive arcs
      (and the closing one from the last arc back to the first) run along
      the top, right, bottom and left edges of the canvas, in clockwise
      order: the path is a rounded rectangle filling the canvas. */
  lemma ClipPathFollowsCanvasEdges(canvas: Size, cornerRadius: Int32)
    requires 0 < 2 * cornerRadius <= Min(canvas.width, canvas.height)
    ensures var arcs := ClipArcs(canvas, Diameter(cornerRadius));
      var w2, h2 := 2 * canvas.width, 2 * canvas.height;
      && EndPoint(arcs[0]).y2 == 0 && StartPoint(arcs[1]).y2 == 0
      && EndPoint(arcs[0]).x2 <= StartPoint(arcs[1]).x2
      && EndPoint(arcs[1]).x2 == w2 && StartPoint(arcs[2]).x2 == w2
      && EndPoint(arcs[1]).y2 <= StartPoint(arcs[2]).y2
      && EndPoint(arcs[2]).y2 == h2 && StartPoint(arcs[3]).y2 == h2
      && EndPoint(arcs[2]).x2 >= StartPoint(arcs[3]).x2
      && EndPoint(arcs[3]).x2 == 0 && StartPoint(arcs[0]).x2 == 0
      && EndPoint(arcs[3]).y2 >= StartPoint(arcs[0]).y2
  {
  }

  /** Two sample images: a 2000x1500 landscape photo and a 1200x1600
      portrait scan, and a square one. */
  lemma SampleCanvases()
    ensures AddTransparentRoundCorners(Size(2000, 1500), 20).canvas == Size(1600, 1280)
    ensures AddTransparentRoundCorners(Size(1200, 1600), 20).canvas == Size(1280, 1600)
    ensures AddTransparentRoundCorners(Size(1000, 1000), 20).canvas == Size(1600, 1280)
  {
  }

  /** The straight segment `GraphicsPath` inserts between the bottom-left
      arc and the repeated top-left arc runs up the left edge of the canvas:
      the open border path strokes that edge only because the first arc is
      added again. */
  lemma BorderStrokesLeftEdge(canvas: Size, cornerRadius: Int32)
    requires 0 < 2 * cornerRadius <= Min(canvas.width, canvas.height)
    ensures var border := BorderArcs(canvas, Diameter(cornerRadius));
      && EndPoint(border[3]).x2 == 0 && StartPoint(border[4]).x2 == 0
      && EndPoint(border[3]).y2 >= StartPoint(border[4]).y2
  {
  }
}
