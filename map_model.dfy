/**
 * The map model: the EMap base class and the EMap that MapView builds for
 * itself. It holds the viewport (bounds, zoom level, resolution and scale)
 * and forwards every viewport change to its tile layers.
 *
 * The layers are the view's children; adding and removing them belongs to
 * the view hierarchy, so here they are fixed when the map is built. Every
 * child is a TileLayer, and a view is never the child of one parent twice,
 * so the layers are distinct.
 */
module MapModel {
  import opened Geometry
  import opened Projection
  import opened TileLayers

  /** CoordinationUnit: the unit of a translate offset. */
  datatype CoordinationUnit = PIXEL | LAT_LNG | METER

  /** How a Java call ends: with a value, or by throwing
      NullPointerException. */
  datatype Outcome<T> = Returned(value: T) | NullPointerException

  // ---------------------------------------------------------------------
  // Zooming: halving and doubling the bounds

  /** The bounds zoomIn asks for: every edge halved. */
  function Halved(b: Bounds): (r: Bounds)
    ensures Width(r) == Width(b) / 2.0 && Height(r) == Height(b) / 2.0
    ensures Doubled(r) == b
  {
    Bounds(b.left / 2.0, b.top / 2.0, b.right / 2.0, b.bottom / 2.0)
  }

  /** The bounds zoomOut asks for: every edge doubled. */
  function Doubled(b: Bounds): (r: Bounds)
    ensures Width(r) == Width(b) * 2.0 && Height(r) == Height(b) * 2.0
  {
    Bounds(b.left * 2.0, b.top * 2.0, b.right * 2.0, b.bottom * 2.0)
  }

  /** Doubling undoes halving, so a zoomOut after an effective zoomIn gives
      the original bounds back. */
  lemma HalvedDoubled(b: Bounds)
    ensures Halved(Doubled(b)) == b && Doubled(Halved(b)) == b
  {
  }

  /** Halving the bounds while going one level deeper keeps the viewport's
      size in pixels: the resolution halves too. */
  lemma ZoomInKeepsPixelSize(t: Translation, b: Bounds, zoom: int)
    requires WellFormed(t)
    ensures Width(Halved(b)) / Resolution(t, zoom + 1) == Width(b) / Resolution(t, zoom)
    ensures Height(Halved(b)) / Resolution(t, zoom + 1) == Height(b) / Resolution(t, zoom)
  {
    var r := Resolution(t, zoom);
    ResolutionHalves(t, zoom);
    HalfOverHalf(Width(b), r);
    HalfOverHalf(Height(b), r);
  }

  lemma HalfOverHalf(x: real, r: real)
    requires r > 0.0
    ensures (x / 2.0) / (r / 2.0) == x / r
  {
    assert (x / 2.0) / (r / 2.0) * r == x by {
      assert (x / 2.0) / (r / 2.0) * (r / 2.0) == x / 2.0;
    }
  }

  // ---------------------------------------------------------------------
  // Translating with clamping to the full extent

  /** The offset in meters: pixels times the current resolution, meters
      as given, and nothing for latitude/longitude, which translate does
      not handle. */
  function Displacement(unit: CoordinationUnit, dx: real, dy: real, resolution: real): Point
  {
    match unit
    case PIXEL => Point(resolution * dx, resolution * dy)
    case LAT_LNG => Point(0.0, 0.0)
    case METER => Point(dx, dy)
  }

  /** The horizontal step of translate: shift both edges by -mx unless the
      right edge would pass the extent's right (then it is put on it) or
      the left edge would pass the extent's left (then it is put on it);
      the other edge moves by the same amount. */
  function ShiftX(b: Bounds, extent: Bounds, mx: real): Bounds
  {
    if b.right - mx > extent.right then
      b.(right := extent.right, left := b.left - (b.right - extent.right))
    else if b.left - mx < extent.left then
      b.(left := extent.left, right := b.right - (b.left - extent.left))
    else
      b.(left := b.left - mx, right := b.right - mx)
  }

  /** The vertical step of translate, the same with non-strict comparisons. */
  function ShiftY(b: Bounds, extent: Bounds, my: real): Bounds
  {
    if b.bottom - my >= extent.bottom then
      b.(top := b.top - (b.bottom - extent.bottom), bottom := extent.bottom)
    else if b.top - my <= extent.top then
      b.(top := extent.top, bottom := b.bottom - (b.top - extent.top))
    else
      b.(top := b.top - my, bottom := b.bottom - my)
  }

  /** The bounds translate ends with. */
  function Translated(b: Bounds, extent: Bounds, mx: real, my: real): Bounds
  {
    ShiftY(ShiftX(b, extent, mx), extent, my)
  }

  /** Plain translation with no clamping. */
  function Shifted(b: Bounds, mx: real, my: real): Bounds
  {
    Bounds(b.left - mx, b.top - my, b.right - mx, b.bottom - my)
  }

  /** Bounds lying within an extent. */
  predicate Within(b: Bounds, extent: Bounds)
  {
    extent.left <= b.left && b.right <= extent.right && extent.top <= b.top && b.bottom <= extent.bottom
  }

  /** translate never resizes the viewport, and each axis either moves
      freely or ends on the extent edge it would have passed. */
  lemma TranslatedSpec(b: Bounds, extent: Bounds, mx: real, my: real)
    ensures var r := Translated(b, extent, mx, my);
            Width(r) == Width(b) && Height(r) == Height(b)
    ensures var r := Translated(b, extent, mx, my);
            && (b.right - mx > extent.right ==> r.right == extent.right)
            && (b.right - mx <= extent.right && b.left - mx < extent.left ==> r.left == extent.left)
            && (b.right - mx <= extent.right && b.left - mx >= extent.left ==>
                  r.left == b.left - mx && r.right == b.right - mx)
            && (b.bottom - my >= extent.bottom ==> r.bottom == extent.bottom)
            && (b.bottom - my < extent.bottom && b.top - my <= extent.top ==> r.top == extent.top)
            && (b.bottom - my < extent.bottom && b.top - my > extent.top ==>
                  r.top == b.top - my && r.bottom == b.bottom - my)
  {
  }

  /** A viewport inside the full extent stays inside it, however far it is
      translated. */
  lemma TranslatedStaysWithin(b: Bounds, extent: Bounds, mx: real, my: real)
    requires Within(b, extent) && b.left <= b.right && b.top <= b.bottom
    ensures Within(Translated(b, extent, mx, my), extent)
  {
  }

  /** When the plainly shifted viewport lies within the extent, touching
      its edges included, translate is that plain shift: where a shifted
      edge lands exactly on the extent, clamping it changes nothing. */
  lemma TranslatedWithinIsShift(b: Bounds, extent: Bounds, mx: real, my: real)
    requires Within(Shifted(b, mx, my), extent)
    ensures Translated(b, extent, mx, my) == Shifted(b, mx, my)
  {
  }

  // ---------------------------------------------------------------------
  // The center of the viewport

  /** getCenter as written: half the width and half the height. */
  function CenterAsWritten(b: Bounds): Point
  {
    Point((b.right - b.left) / 2.0, (b.bottom - b.top) / 2.0)
  }

  /** The center of the bounds: as far from each edge as from the opposite
      one, and inside the bounds when they are well ordered. */
  function Midpoint(b: Bounds): (c: Point)
    ensures c.x - b.left == b.right - c.x && c.y - b.top == b.bottom - c.y
    ensures b.left <= b.right && b.top <= b.bottom ==>
              b.left <= c.x <= b.right && b.top <= c.y <= b.bottom
  {
    Point((b.left + b.right) / 2.0, (b.top + b.bottom) / 2.0)
  }

  /** The written center is the midpoint only for bounds whose left and top
      edges are at 0; for (100, 100, 200, 200) it is (50, 50), outside the
      viewport. */
  lemma CenterAsWrittenDefect(b: Bounds)
    ensures CenterAsWritten(b) == Midpoint(b) <==> b.left == 0.0 && b.top == 0.0
    ensures var c := CenterAsWritten(Bounds(100.0, 100.0, 200.0, 200.0));
            c == Point(50.0, 50.0) && c != Midpoint(Bounds(100.0, 100.0, 200.0, 200.0))
  {
  }

  // ---------------------------------------------------------------------
  // What the map does to its layers

  /** The fields of a tile layer, so that a map operation can say how each
      layer's state moves. */
  datatype LayerFields = LayerFields(
    info: MapInfo, translation: Translation, currentTiles: seq<PixelTile>,
    buffer: Raster?, bounds: Option<Bounds>, state: WorkerState,
    handlerAlive: bool, pendingUpdates: nat, scale: real)

  function FieldsOf(l: TileLayer): LayerFields
    reads l
  {
    LayerFields(l.info, l.translation, l.currentTiles, l.buffer, l.bounds, l.state,
                l.handlerAlive, l.pendingUpdates, l.scale)
  }

  /** A layer told updateBounds(b, level): it records b and, with a live
      handler, has one more update runnable posted. */
  predicate Notified(before: LayerFields, after: LayerFields, b: Bounds)
  {
    after == before.(bounds := Some(b),
                     pendingUpdates := before.pendingUpdates + if before.handlerAlive then 1 else 0)
  }

  /** A layer told scale(factor). */
  predicate Rescaled(before: LayerFields, after: LayerFields, factor: real)
  {
    after == before.(scale := before.scale * factor)
  }

  /** The EMap of a MapView. */
  class EMap {
    /** mMapInfo: None while no configuration has been loaded. */
    var info: Option<MapInfo>
    /** mBounds: None until the first updateBounds. */
    var bounds: Option<Bounds>
    /** mScale. */
    var scale: real
    /** mZoom. */
    var zoom: int
    /** mResolution. */
    var resolution: real
    /** mTranslation. */
    const translation: Translation
    /** The child views, in order. */
    const layers: seq<TileLayer>

    ghost predicate Valid()
      reads this
    {
      && WellFormed(translation)
      && (forall i, j :: 0 <= i < j < |layers| ==> layers[i] != layers[j])
    }

    /** The zoom level names one of the configured levels. */
    ghost predicate ZoomInRange()
      reads this
    {
      info.Some? && 0 <= zoom < |info.value.levels|
    }

    /** A new map: Java's default field values, nothing loaded yet. */
    constructor (translation: Translation, layers: seq<TileLayer>)
      requires WellFormed(translation)
      requires forall i, j :: 0 <= i < j < |layers| ==> layers[i] != layers[j]
      ensures Valid() && this.translation == translation && this.layers == layers
      ensures info == None && bounds == None
      ensures zoom == 0 && resolution == 0.0 && scale == 0.0
    {
      this.translation := translation;
      this.layers := layers;
      info, bounds := None, None;
      zoom, resolution, scale := 0, 0.0, 0.0;
    }

    /** initMapInfo(loader): `loader` is None for a null loader, otherwise
        what its load() returns. The loaded value is stored even when it is
        null, and the result says whether it was not. */
    method InitMapInfo(loader: Option<Option<MapInfo>>) returns (r: Outcome<bool>)
      modifies this
      ensures loader.None? ==> r == NullPointerException && info == old(info)
      ensures loader.Some? ==> info == loader.value && r == Returned(info.Some?)
      ensures bounds == old(bounds) && zoom == old(zoom)
      ensures resolution == old(resolution) && scale == old(scale)
    {
      if loader.None? {
        return NullPointerException;
      }
      info := loader.value;
      if info.None? {
        return Returned(false);
      }
      return Returned(true);
    }

    /** Tell every layer, in order, updateBounds(b, level). */
    method NotifyLayers(b: Bounds, level: int)
      requires Valid()
      modifies layers
      ensures forall k :: 0 <= k < |layers| ==> Notified(old(FieldsOf(layers[k])), FieldsOf(layers[k]), b)
    {
      for i := 0 to |layers|
        invariant forall k :: 0 <= k < i ==> Notified(old(FieldsOf(layers[k])), FieldsOf(layers[k]), b)
        invariant forall k :: i <= k < |layers| ==> FieldsOf(layers[k]) == old(FieldsOf(layers[k]))
      {
        layers[i].UpdateBoundsAt(b, level);
      }
    }

    /** updateBounds(bounds, level): the map takes the level, its resolution
        and the bounds, then passes (bounds, level) on to every layer. */
    method UpdateBoundsAt(b: Bounds, level: int)
      requires Valid()
      modifies this, layers
      ensures Valid() && info == old(info) && scale == old(scale)
      ensures zoom == level && resolution == Resolution(translation, level) && bounds == Some(b)
      ensures forall k :: 0 <= k < |layers| ==> Notified(old(FieldsOf(layers[k])), FieldsOf(layers[k]), b)
    {
      zoom, resolution, bounds := level, Resolution(translation, level), Some(b);
      NotifyLayers(b, level);
    }

    /** updateBounds(bounds): the same at the current level. */
    method UpdateBounds(b: Bounds)
      requires Valid()
      modifies this, layers
      ensures Valid() && info == old(info) && scale == old(scale)
      ensures zoom == old(zoom) && resolution == Resolution(translation, zoom) && bounds == Some(b)
      ensures forall k :: 0 <= k < |layers| ==> Notified(old(FieldsOf(layers[k])), FieldsOf(layers[k]), b)
    {
      UpdateBoundsAt(b, zoom);
    }

    /** zoomIn: below the deepest level, halve the bounds one level deeper;
        at it, change nothing. */
    method ZoomIn()
      requires Valid() && info.Some? && bounds.Some?
      modifies this, layers
      ensures Valid() && info == old(info) && scale == old(scale)
      ensures old(zoom) < |info.value.levels| - 1 ==>
                && zoom == old(zoom) + 1 && bounds == Some(Halved(old(bounds.value)))
                && resolution == Resolution(translation, zoom)
                && forall k :: 0 <= k < |layers| ==> Notified(old(FieldsOf(layers[k])), FieldsOf(layers[k]), bounds.value)
      ensures old(zoom) >= |info.value.levels| - 1 ==>
                zoom == old(zoom) && bounds == old(bounds) && resolution == old(resolution) && unchanged(layers)
      ensures old(ZoomInRange()) ==> ZoomInRange()
    {
      if zoom < |info.value.levels| - 1 {
        var b := bounds.value;
        UpdateBoundsAt(Bounds(b.left / 2.0, b.top / 2.0, b.right / 2.0, b.bottom / 2.0), zoom + 1);
      }
    }

    /** zoomOut: above level 0, double the bounds one level up; at 0,
        change nothing. */
    method ZoomOut()
      requires Valid() && info.Some? && bounds.Some?
      modifies this, layers
      ensures Valid() && info == old(info) && scale == old(scale)
      ensures old(zoom) > 0 ==>
                && zoom == old(zoom) - 1 && bounds == Some(Doubled(old(bounds.value)))
                && resolution == Resolution(translation, zoom)
                && forall k :: 0 <= k < |layers| ==> Notified(old(FieldsOf(layers[k])), FieldsOf(layers[k]), bounds.value)
      ensures old(zoom) <= 0 ==>
                zoom == old(zoom) && bounds == old(bounds) && resolution == old(resolution) && unchanged(layers)
      ensures old(ZoomInRange()) ==> ZoomInRange()
    {
      if zoom > 0 {
        var b := bounds.value;
        UpdateBoundsAt(Bounds(b.left * 2.0, b.top * 2.0, b.right * 2.0, b.bottom * 2.0), zoom - 1);
      }
    }

    /** Tell every layer, in order, scale(factor). */
    method RescaleLayers(factor: real)
      requires Valid()
      modifies layers
      ensures forall k :: 0 <= k < |layers| ==> Rescaled(old(FieldsOf(layers[k])), FieldsOf(layers[k]), factor)
    {
      for i := 0 to |layers|
        invariant forall k :: 0 <= k < i ==> Rescaled(old(FieldsOf(layers[k])), FieldsOf(layers[k]), factor)
        invariant forall k :: i <= k < |layers| ==> FieldsOf(layers[k]) == old(FieldsOf(layers[k]))
      {
        layers[i].Scale(factor);
      }
    }

    /** updateScaleAtMeters(factor, mx, my): resolution and scale are divided
        by the factor and every layer's drawing scale multiplied by it; the
        point plays no part. */
    method UpdateScaleAtMeters(factor: real, mx: real, my: real)
      requires Valid() && factor != 0.0
      modifies this, layers
      ensures Valid() && info == old(info) && bounds == old(bounds) && zoom == old(zoom)
      ensures resolution * factor == old(resolution) && scale * factor == old(scale)
      ensures forall k :: 0 <= k < |layers| ==> Rescaled(old(FieldsOf(layers[k])), FieldsOf(layers[k]), factor)
    {
      resolution, scale := resolution / factor, scale / factor;
      RescaleLayers(factor);
    }

    /** updateScale(factor): updateScaleAtMeters with the point
        ((right - right) / 2, (bottom - top) / 2). */
    method UpdateScale(factor: real)
      requires Valid() && bounds.Some? && factor != 0.0
      modifies this, layers
      ensures Valid() && info == old(info) && bounds == old(bounds) && zoom == old(zoom)
      ensures resolution * factor == old(resolution) && scale * factor == old(scale)
      ensures forall k :: 0 <= k < |layers| ==> Rescaled(old(FieldsOf(layers[k])), FieldsOf(layers[k]), factor)
    {
      var x := (bounds.value.right - bounds.value.right) / 2.0;
      var y := (bounds.value.bottom - bounds.value.top) / 2.0;
      UpdateScaleAtMeters(factor, x, y);
    }

    /** translate(offsetX, offsetY, unit): move the bounds by the offset in
        meters, clamped to the full extent, then updateBounds with them,
        which also resets the resolution to that of the current level. */
    method Translate(offsetX: real, offsetY: real, unit: CoordinationUnit)
      requires Valid() && info.Some? && bounds.Some?
      modifies this, layers
      ensures Valid() && info == old(info) && scale == old(scale) && zoom == old(zoom)
      ensures var d := Displacement(unit, offsetX, offsetY, old(resolution));
              bounds == Some(Translated(old(bounds.value), info.value.fullExtent, d.x, d.y))
      ensures Width(bounds.value) == Width(old(bounds.value)) && Height(bounds.value) == Height(old(bounds.value))
      ensures resolution == Resolution(translation, zoom)
      ensures forall k :: 0 <= k < |layers| ==> Notified(old(FieldsOf(layers[k])), FieldsOf(layers[k]), bounds.value)
    {
      var mx, my := 0.0, 0.0;
      match unit {
        case PIXEL =>
          mx, my := resolution * offsetX, resolution * offsetY;
        case LAT_LNG =>
        case METER =>
          mx, my := offsetX, offsetY;
      }
      var extent := info.value.fullExtent;
      var b := bounds.value;
      if b.right - mx > extent.right {
        var offsetM := b.right - extent.right;
        b := b.(right := extent.right);
        b := b.(left := b.left - offsetM);
      } else if b.left - mx < extent.left {
        var offsetM := b.left - extent.left;
        b := b.(left := extent.left);
        b := b.(right := b.right - offsetM);
      } else {
        b := b.(left := b.left - mx, right := b.right - mx);
      }
      if b.bottom - my >= extent.bottom {
        var offsetM := b.bottom - extent.bottom;
        b := b.(top := b.top - offsetM);
        b := b.(bottom := extent.bottom);
      } else if b.top - my <= extent.top {
        var offsetM := b.top - extent.top;
        b := b.(top := extent.top);
        b := b.(bottom := b.bottom - offsetM);
      } else {
        b := b.(top := b.top - my, bottom := b.bottom - my);
      }
      TranslatedSpec(bounds.value, extent, mx, my);
      UpdateBounds(b);
    }
  }
}
