/** The tilt/parallax effect of the security diagram: pointer position inside
    the container, relative to its centre, drives the stage rotation and the
    offsets of the parallax layers; leaving the container resets them. */
module Tilt {
  import opened Common

  const MaxRotate: real := 20.0
  const MaxMove: real := 40.0
  const DefaultDepth: real := 0.2
  const CentreTextZ: real := 20.0

  /** The offsets from the centre, in units of half the width and half the
      height, and the stage rotations in degrees. */
  datatype Tilt = Tilt(percentX: real, percentY: real, rotateX: real, rotateY: real)

  /** The pointer lies inside (or on the edge of) the container. */
  predicate Inside(client: Point, box: Rect)
  {
    box.left <= client.x <= box.left + box.width && box.top <= client.y <= box.top + box.height
  }

  /** The `mousemove` computation. The pointer at the centre gives no rotation;
      `rotateX` has the opposite sign of `percentY` and `rotateY` the sign of
      `percentX`, each at 20 degrees per unit. */
  function TiltAt(client: Point, box: Rect): (t: Tilt)
    requires box.width > 0.0 && box.height > 0.0
    ensures client == Centre(box) ==> t.percentX == 0.0 && t.percentY == 0.0 && t.rotateX == 0.0 && t.rotateY == 0.0
    ensures t.rotateY == MaxRotate * t.percentX && t.rotateX == -MaxRotate * t.percentY
    ensures (t.rotateY > 0.0 <==> t.percentX > 0.0) && (t.rotateY < 0.0 <==> t.percentX < 0.0)
    ensures (t.rotateX > 0.0 <==> t.percentY < 0.0) && (t.rotateX < 0.0 <==> t.percentY > 0.0)
  {
    var x, y := client.x - box.left, client.y - box.top;
    var centreX, centreY := box.width / 2.0, box.height / 2.0;
    var percentX, percentY := (x - centreX) / centreX, (y - centreY) / centreY;
    Tilt(percentX, percentY, MaxRotate * percentY * -1.0, MaxRotate * percentX)
  }

  lemma UnitQuotient(a: real, c: real)
    requires c > 0.0 && -c <= a <= c
    ensures -1.0 <= a / c <= 1.0
  {
    assert a / c * c == a;
  }

  /** Inside the container both offsets lie in [-1, 1] and both rotations in
      [-20, 20] degrees. */
  lemma TiltBounds(client: Point, box: Rect)
    requires box.width > 0.0 && box.height > 0.0 && Inside(client, box)
    ensures var t := TiltAt(client, box);
      -1.0 <= t.percentX <= 1.0 && -1.0 <= t.percentY <= 1.0 &&
      -MaxRotate <= t.rotateX <= MaxRotate && -MaxRotate <= t.rotateY <= MaxRotate
  {
    UnitQuotient(client.x - box.left - box.width / 2.0, box.width / 2.0);
    UnitQuotient(client.y - box.top - box.height / 2.0, box.height / 2.0);
  }

  /** At the top-left corner the stage tilts by the full 20 degrees, and at the
      bottom-right corner by the full 20 degrees the other way. */
  lemma TiltAtCorners(box: Rect)
    requires box.width > 0.0 && box.height > 0.0
    ensures TiltAt(Point(box.left, box.top), box) == Tilt(-1.0, -1.0, MaxRotate, -MaxRotate)
    ensures TiltAt(Point(box.left + box.width, box.top + box.height), box) == Tilt(1.0, 1.0, -MaxRotate, MaxRotate)
  {
    var cx, cy := box.width / 2.0, box.height / 2.0;
    assert (0.0 - cx) / cx == -1.0;
    assert (0.0 - cy) / cy == -1.0;
    assert (box.width - cx) / cx == 1.0 by { assert box.width - cx == cx; }
    assert (box.height - cy) / cy == 1.0 by { assert box.height - cy == cy; }
  }

  /** The `data-depth` attribute of a layer. */
  datatype DepthAttr = Absent | EmptyString | Numeric(value: real)

  /** `getAttribute('data-depth') || 0.2`: a missing or empty attribute falls back
      to 0.2; the string "0" is truthy, so an explicit depth of 0 is kept. */
  function LayerDepth(a: DepthAttr): real
  {
    match a
    case Numeric(v) => v
    case _ => DefaultDepth
  }

  /** A layer's inline `transform`: as styled by the page, `translate3d(x, y, z)`
      or `translateZ(z)`. */
  datatype LayerTransform = CssDefault | Translate3d(x: real, y: real, z: real) | TranslateZ(z: real)

  /** The stage's inline rotation, as styled by the page or as set by a handler. */
  datatype StageTransform = StageDefault | Rotated(rotateX: real, rotateY: real)

  /** `translate3d(percentX * 40 * depth, percentY * 40 * depth, depth * 50)`. */
  function LayerOffset(t: Tilt, a: DepthAttr): (r: LayerTransform)
  {
    var depth := LayerDepth(a);
    Translate3d(t.percentX * MaxMove * depth, t.percentY * MaxMove * depth, depth * 50.0)
  }

  /** Inside the container, a layer of non-negative depth moves by at most
      `40 * depth` px along each axis; a layer without a depth moves by at most
      8 px and sits 10 px forward. */
  lemma LayerOffsetBounds(client: Point, box: Rect, a: DepthAttr)
    requires box.width > 0.0 && box.height > 0.0 && Inside(client, box) && LayerDepth(a) >= 0.0
    ensures var r := LayerOffset(TiltAt(client, box), a);
      var m := MaxMove * LayerDepth(a);
      -m <= r.x <= m && -m <= r.y <= m && r.z == 50.0 * LayerDepth(a)
    ensures !a.Numeric? ==> LayerOffset(TiltAt(client, box), a).z == 10.0
    ensures !a.Numeric? ==> -8.0 <= LayerOffset(TiltAt(client, box), a).x <= 8.0
  {
    TiltBounds(client, box);
    var t := TiltAt(client, box);
    var m := MaxMove * LayerDepth(a);
    ScaleWithin(t.percentX, m);
    ScaleWithin(t.percentY, m);
  }

  lemma ScaleWithin(p: real, m: real)
    requires -1.0 <= p <= 1.0 && m >= 0.0
    ensures -m <= p * MaxMove * (m / MaxMove) <= m
  {
    assert p * MaxMove * (m / MaxMove) == p * m;
    if p >= 0.0 { assert p * m <= 1.0 * m; } else { assert (-p) * m <= m; }
  }

  class Stage {
    /** The `data-depth` attribute of each `.parallax-layer`. */
    const depths: seq<DepthAttr>
    /** Whether each layer has the `chart-center-text` class. */
    const centreText: seq<bool>
    const layers: array<LayerTransform>
    var rotation: StageTransform

    ghost predicate Valid()
      reads this
    {
      |depths| == |centreText| == layers.Length
    }

    constructor (depths: seq<DepthAttr>, centreText: seq<bool>)
      requires |depths| == |centreText|
      ensures Valid() && this.depths == depths && this.centreText == centreText && fresh(layers)
      ensures rotation == StageDefault && forall i :: 0 <= i < layers.Length ==> layers[i] == CssDefault
    {
      this.depths, this.centreText := depths, centreText;
      layers := new LayerTransform[|depths|](_ => CssDefault);
      rotation := StageDefault;
    }

    /** The container's `mousemove`: rotate the stage, offset every layer. */
    method OnMouseMove(client: Point, box: Rect)
      requires Valid() && box.width > 0.0 && box.height > 0.0
      modifies this, layers
      ensures Valid()
      ensures rotation == Rotated(TiltAt(client, box).rotateX, TiltAt(client, box).rotateY)
      ensures forall i :: 0 <= i < layers.Length ==> layers[i] == LayerOffset(TiltAt(client, box), depths[i])
    {
      var t := TiltAt(client, box);
      rotation := Rotated(t.rotateX, t.rotateY);
      for i := 0 to layers.Length
        invariant rotation == Rotated(t.rotateX, t.rotateY)
        invariant forall j :: 0 <= j < i ==> layers[j] == LayerOffset(t, depths[j])
      {
        layers[i] := LayerOffset(t, depths[i]);
      }
    }

    /** The container's `mouseleave`: no rotation, no layer offset, except that a
        `chart-center-text` layer goes back to `translateZ(20px)`. */
    method OnMouseLeave()
      requires Valid()
      modifies this, layers
      ensures Valid() && rotation == Rotated(0.0, 0.0)
      ensures forall i :: 0 <= i < layers.Length ==>
                layers[i] == if centreText[i] then TranslateZ(CentreTextZ) else Translate3d(0.0, 0.0, 0.0)
    {
      rotation := Rotated(0.0, 0.0);
      for i := 0 to layers.Length
        invariant rotation == Rotated(0.0, 0.0)
        invariant forall j :: 0 <= j < i ==>
                    layers[j] == if centreText[j] then TranslateZ(CentreTextZ) else Translate3d(0.0, 0.0, 0.0)
      {
        layers[i] := Translate3d(0.0, 0.0, 0.0);
        if centreText[i] {
          layers[i] := TranslateZ(CentreTextZ);
        }
      }
    }
  }
}
