/** The geometry of `ImageProcessor.apply_logo`: merging the caller's settings over the
    defaults, the size of the resized logo, the anchor and margin rule, the clamp that
    keeps the logo's corner inside the image, and the resulting paste. */
module LogoPlacement {
  import opened Wrappers
  import Config
  import opened Raster

  // ---------------------------------------------------------------------------
  // Settings
  // ---------------------------------------------------------------------------

  /** The keyword arguments a caller passes; None is a key that was not passed. */
  datatype Overrides = Overrides(
    position: Option<string>,
    size: Option<real>,
    opacity: Option<real>,
    margin: Option<int>,
    customPosition: Option<(int, int)>)

  const NoOverrides: Overrides := Overrides(None, None, None, None, None)

  /** The effective settings of one `apply_logo` call. */
  datatype Settings = Settings(
    position: string,
    size: real,
    opacity: real,
    margin: int,
    customPosition: Option<(int, int)>)

  /** `default_settings`; there is no default custom position. */
  const DefaultSettings: Settings :=
    Settings(Config.DefaultPosition, Config.DefaultLogoSize, Config.DefaultOpacity, Config.LogoMargin, None)

  /** `settings = default_settings.copy(); settings.update(kwargs)`. */
  function Merge(kw: Overrides): Settings {
    Settings(
      kw.position.GetOr(DefaultSettings.position),
      kw.size.GetOr(DefaultSettings.size),
      kw.opacity.GetOr(DefaultSettings.opacity),
      kw.margin.GetOr(DefaultSettings.margin),
      kw.customPosition)
  }

  /** Every key of the settings passed explicitly. */
  function AsOverrides(s: Settings): Overrides {
    Overrides(Some(s.position), Some(s.size), Some(s.opacity), Some(s.margin), s.customPosition)
  }

  /** Each key takes the caller's value when one is passed and the default otherwise. */
  lemma MergeIsKeyByKey(kw: Overrides)
    ensures Merge(kw).position == if kw.position.Some? then kw.position.value else "bottom_right"
    ensures Merge(kw).size == if kw.size.Some? then kw.size.value else 0.1
    ensures Merge(kw).opacity == if kw.opacity.Some? then kw.opacity.value else 0.8
    ensures Merge(kw).margin == if kw.margin.Some? then kw.margin.value else 20
    ensures Merge(kw).customPosition == kw.customPosition
  {
  }

  /** Passing nothing gives the defaults; passing every key gives exactly those values. */
  lemma MergeDefaultsAndFullOverride(s: Settings)
    ensures Merge(NoOverrides) == DefaultSettings
    ensures Merge(AsOverrides(s)) == s
  {
  }

  // ---------------------------------------------------------------------------
  // Logo size
  // ---------------------------------------------------------------------------

  /** Python's `int(r)`: truncation toward zero. */
  function Trunc(r: real): (t: int)
    ensures r >= 0.0 ==> 0 <= t && t as real <= r < t as real + 1.0
    ensures r < 0.0 ==> t <= 0 && t as real - 1.0 < r <= t as real
  {
    if r >= 0.0 then r.Floor else -((-r).Floor)
  }

  datatype Dims = Dims(width: int, height: int)

  /** The resized logo's size: width `int(W * size)`, height `int(h0 * (width / w0))`.
      None where the call fails: division by a logo of width 0, or a resize to a side
      below one pixel, which Pillow refuses. */
  function LogoDims(imageWidth: nat, logo: Image, size: real): Option<Dims> {
    var w := ScaledWidth(imageWidth, size);
    if logo.width == 0 || w < 1 then None
    else
      var h := ScaledHeight(logo.height, w, logo.width);
      if h < 1 then None else Some(Dims(w, h))
  }

  /** `int(W * size)`; a fraction of at most 1 gives at most the image width. */
  function ScaledWidth(imageWidth: nat, size: real): (w: int)
    ensures size <= 1.0 ==> w <= imageWidth
  {
    TruncatedFraction(imageWidth, size);
    Trunc(imageWidth as real * size)
  }

  /** `int(h0 * (w / w0))`: the height that keeps the ratio `h0 / w0` up to truncation,
      `h / w <= h0 / w0 < (h + 1) / w` stated without division. */
  function ScaledHeight(h0: nat, w: nat, w0: nat): (h: int)
    requires w0 > 0
    ensures h * w0 <= h0 * w < (h + 1) * w0
  {
    TruncatedScale(h0, w, w0);
    Trunc(h0 as real * (w as real / w0 as real))
  }

  lemma MulLeq(a: real, b: real, c: real)
    requires a <= b && c >= 0.0
    ensures a * c <= b * c
  {
  }

  lemma MulLt(a: real, b: real, c: real)
    requires a < b && c > 0.0
    ensures a * c < b * c
  {
  }

  /** The logo is `int(W * size)` wide and keeps its aspect ratio up to truncation:
      `h / w <= h0 / w0 < (h + 1) / w` stated without division. A fraction of at
      most 1 gives a logo no wider than the image. */
  lemma {:induction false} LogoKeepsAspectRatio(imageWidth: nat, logo: Image, size: real)
    requires LogoDims(imageWidth, logo, size).Some?
    ensures var d := LogoDims(imageWidth, logo, size).value;
      && d.width == ScaledWidth(imageWidth, size)
      && d.width >= 1 && d.height >= 1
      && d.height * logo.width <= logo.height * d.width < (d.height + 1) * logo.width
    ensures size <= 1.0 ==> LogoDims(imageWidth, logo, size).value.width <= imageWidth
  {
  }

  /** `int(W * size)` is at most `W` for a fraction of at most 1. */
  lemma TruncatedFraction(imageWidth: nat, size: real)
    ensures size <= 1.0 ==> Trunc(imageWidth as real * size) <= imageWidth
  {
    if size <= 1.0 {
      var r := imageWidth as real * size;
      MulLeq(size, 1.0, imageWidth as real);
      assert r == size * imageWidth as real;
      assert r <= imageWidth as real;
      var t := Trunc(r);
      assert t as real <= imageWidth as real;
      CastOrder(t, imageWidth);
    }
  }

  /** `h = int(h0 * (w / w0))` satisfies `h * w0 <= h0 * w < (h + 1) * w0`. */
  lemma TruncatedScale(h0: nat, w: nat, w0: nat)
    requires w0 > 0
    ensures var h := Trunc(h0 as real * (w as real / w0 as real));
      h * w0 <= h0 * w < (h + 1) * w0
  {
    var q := h0 as real * (w as real / w0 as real);
    ScaleBack(h0, w, w0);
    var h := Trunc(q);
    FloorBounds(q, h, h0 * w, w0);
  }

  /** When `q * d == n`, a `h <= q < h + 1` gives `h * d <= n < (h + 1) * d`. */
  lemma FloorBounds(q: real, h: int, n: int, d: int)
    requires d > 0 && q * d as real == n as real
    requires h as real <= q < h as real + 1.0
    ensures h * d <= n < (h + 1) * d
  {
    FloorLower(q, h, n, d);
    FloorUpper(q, h + 1, n, d);
  }

  lemma FloorLower(q: real, h: int, n: int, d: int)
    requires d > 0 && q * d as real == n as real && h as real <= q
    ensures h * d <= n
  {
    MulLeq(h as real, q, d as real);
    CastProduct(h, d);
    CastOrder(h * d, n);
  }

  lemma FloorUpper(q: real, h: int, n: int, d: int)
    requires d > 0 && q * d as real == n as real && q < h as real
    ensures n < h * d
  {
    MulLt(q, h as real, d as real);
    CastProduct(h, d);
    CastOrder(n, h * d);
  }

  /** `h0 * (w / w0)` is non-negative and gives back `h0 * w` when multiplied by `w0`. */
  lemma ScaleBack(h0: nat, w: nat, w0: nat)
    requires w0 > 0
    ensures h0 as real * (w as real / w0 as real) >= 0.0
    ensures h0 as real * (w as real / w0 as real) * w0 as real == (h0 * w) as real
  {
    var r := w as real / w0 as real;
    assert r * w0 as real == w as real;
    assert r >= 0.0;
    MulLeq(0.0, h0 as real, r);
    assert h0 as real * r * w0 as real == h0 as real * (r * w0 as real);
  }

  lemma CastOrder(a: int, b: int)
    ensures a as real <= b as real ==> a <= b
    ensures a as real < b as real ==> a < b
  {
  }

  lemma CastProduct(a: int, b: int)
    ensures (a * b) as real == a as real * b as real
  {
  }

  /** The call fails exactly when the logo has width 0 or a side of the resized logo
      would be below one pixel. */
  lemma LogoDimsFailure(imageWidth: nat, logo: Image, size: real)
    ensures LogoDims(imageWidth, logo, size).None? <==>
      logo.width == 0 || ScaledWidth(imageWidth, size) < 1 ||
      ScaledHeight(logo.height, ScaledWidth(imageWidth, size), logo.width) < 1
  {
  }

  // ---------------------------------------------------------------------------
  // Position
  // ---------------------------------------------------------------------------

  /** The anchor's relative coordinates; an unknown name counts as `bottom_right`. */
  function AnchorOf(position: string): (r: (Config.Rel, Config.Rel))
    ensures position in Config.LogoPositions ==> r == Config.LogoPositions[position]
    ensures position !in Config.LogoPositions ==> r == (Config.One, Config.One)
  {
    if position in Config.LogoPositions then Config.LogoPositions[position]
    else Config.LogoPositions["bottom_right"]
  }

  /** The margin moves the logo away from the edge its anchor touches. */
  function MarginShift(rel: Config.Rel, margin: int): int {
    match rel
    case Zero => margin
    case Half => 0
    case One => -margin
  }

  /** One coordinate before clamping: `int(space * rel)` plus the margin shift, where
      `space` is the image side minus the logo side. */
  function AxisOffset(space: int, rel: Config.Rel, margin: int): int {
    Trunc(space as real * Config.RelValue(rel)) + MarginShift(rel, margin)
  }

  /** `max(0, min(v, space))`. */
  function Clamp(v: int, space: int): (r: int)
    ensures space >= 0 ==> 0 <= r <= space
    ensures space < 0 ==> r == 0
    ensures 0 <= v <= space ==> r == v
    ensures v <= 0 ==> r == 0
    ensures space >= 0 && v >= space ==> r == space
  {
    if space < v then (if space < 0 then 0 else space) else (if v < 0 then 0 else v)
  }

  /** The top-left corner of the logo: the custom position when given, otherwise the
      anchor with its margin, clamped on each axis. */
  function Position(imageWidth: nat, imageHeight: nat, d: Dims, s: Settings): (int, int) {
    var spaceX := imageWidth - d.width;
    var spaceY := imageHeight - d.height;
    var (x, y) := if s.customPosition.Some? then s.customPosition.value
      else
        var (rx, ry) := AnchorOf(s.position);
        (AxisOffset(spaceX, rx, s.margin), AxisOffset(spaceY, ry, s.margin));
    (Clamp(x, spaceX), Clamp(y, spaceY))
  }

  /** Per axis, independently: the margin is added on the 0-side, subtracted on the
      1-side and ignored in the middle, where the position is half the free space
      truncated toward zero. */
  lemma {:induction false} MarginRule(space: int, margin: int)
    ensures AxisOffset(space, Config.Zero, margin) == margin
    ensures AxisOffset(space, Config.One, margin) == space - margin
    ensures AxisOffset(space, Config.Half, margin) == if space >= 0 then space / 2 else -((-space) / 2)
  {
    var h := space as real * 0.5;
    if space >= 0 {
      assert (space / 2) as real <= h < (space / 2) as real + 1.0;
    } else {
      assert (-((-space) / 2)) as real - 1.0 < h <= (-((-space) / 2)) as real;
    }
  }

  /** An anchor on an edge with margin 0 puts the logo flush against that edge. */
  lemma {:induction false} ZeroMarginTouchesEdges(space: int)
    requires space >= 0
    ensures Clamp(AxisOffset(space, Config.Zero, 0), space) == 0
    ensures Clamp(AxisOffset(space, Config.One, 0), space) == space
    ensures Clamp(AxisOffset(space, Config.Half, 0), space) == space / 2
  {
    MarginRule(space, 0);
  }

  /** A larger margin never moves the logo toward the edge its anchor touches. */
  lemma {:induction false} LargerMarginMovesInward(space: int, m1: int, m2: int)
    requires m1 <= m2
    ensures Clamp(AxisOffset(space, Config.Zero, m1), space) <= Clamp(AxisOffset(space, Config.Zero, m2), space)
    ensures Clamp(AxisOffset(space, Config.One, m2), space) <= Clamp(AxisOffset(space, Config.One, m1), space)
  {
    MarginRule(space, m1);
    MarginRule(space, m2);
  }

  /** The corner lies in `[0, W - w] x [0, H - h]` when the logo fits, and is 0 on an
      axis where it does not; this holds for custom positions as well. */
  lemma {:induction false} PositionIsClamped(imageWidth: nat, imageHeight: nat, d: Dims, s: Settings)
    ensures var (x, y) := Position(imageWidth, imageHeight, d, s);
      && (d.width <= imageWidth ==> 0 <= x <= imageWidth - d.width)
      && (d.width > imageWidth ==> x == 0)
      && (d.height <= imageHeight ==> 0 <= y <= imageHeight - d.height)
      && (d.height > imageHeight ==> y == 0)
  {
  }

  /** A custom position skips the anchor and the margin and is only clamped. */
  lemma CustomPositionIsOnlyClamped(imageWidth: nat, imageHeight: nat, d: Dims, s: Settings, cx: int, cy: int)
    requires s.customPosition == Some((cx, cy))
    ensures Position(imageWidth, imageHeight, d, s) ==
      (Clamp(cx, imageWidth - d.width), Clamp(cy, imageHeight - d.height))
  {
  }

  /** An anchor name missing from the table places the logo as `bottom_right` does. */
  lemma UnknownAnchorIsBottomRight(imageWidth: nat, imageHeight: nat, d: Dims, s: Settings)
    requires s.position !in Config.LogoPositions
    ensures Position(imageWidth, imageHeight, d, s) ==
      Position(imageWidth, imageHeight, d, s.(position := "bottom_right"))
  {
  }

  // ---------------------------------------------------------------------------
  // apply_logo
  // ---------------------------------------------------------------------------

  /** `apply_logo(image, **kw)` with `logo` as the processor's current logo: a copy of
      the image with the resized logo pasted at its position, or None. */
  function ApplyLogo(logo: Option<Image>, image: Image, kw: Overrides): Option<Image> {
    if logo.None? then None
    else
      var s := Merge(kw);
      match LogoDims(image.width, logo.value, s.size)
      case None => None
      case Some(d) =>
        var (x, y) := Position(image.width, image.height, d, s);
        var translucent := s.opacity < 1.0;
        var paste := Overlay(x, y, d.width, d.height,
                             if translucent then s.opacity else 1.0,
                             translucent || logo.value.mode == RGBA);
        Some(image.(overlays := image.overlays + [paste]))
  }

  /** Without a logo nothing is produced. With one, the result is the image with one
      more paste: size, mode and earlier pastes unchanged, the logo sized by
      `LogoDims`, placed by `Position` from the merged settings. The alpha channel is
      scaled by the opacity only when it is below 1, and then the logo is pasted
      through its alpha mask; an opaque-mode logo at opacity 1 is pasted unmasked. */
  lemma {:induction false} ApplyLogoResult(logo: Option<Image>, image: Image, kw: Overrides)
    ensures logo.None? ==> ApplyLogo(logo, image, kw).None?
    ensures logo.Some? ==>
      (ApplyLogo(logo, image, kw).Some? <==> LogoDims(image.width, logo.value, Merge(kw).size).Some?)
    ensures ApplyLogo(logo, image, kw).Some? ==>
      var r := ApplyLogo(logo, image, kw).value;
      var s := Merge(kw);
      var d := LogoDims(image.width, logo.value, s.size).value;
      && r.width == image.width && r.height == image.height && r.mode == image.mode
      && |r.overlays| == |image.overlays| + 1
      && r.overlays[..|image.overlays|] == image.overlays
      && var o := r.overlays[|image.overlays|];
      && o.width == d.width && o.height == d.height
      && (o.x, o.y) == Position(image.width, image.height, d, s)
      && (s.opacity < 1.0 ==> o.alpha == s.opacity && o.masked)
      && (s.opacity >= 1.0 ==> o.alpha == 1.0 && o.masked == (logo.value.mode == RGBA))
  {
    if ApplyLogo(logo, image, kw).Some? {
      var r := ApplyLogo(logo, image, kw).value;
      assert r.overlays[..|image.overlays|] == image.overlays;
    }
  }

  /** The paste always starts inside the image, and the logo lies wholly inside it
      on every axis where it fits. */
  lemma {:induction false} AppliedLogoStaysInside(logo: Option<Image>, image: Image, kw: Overrides)
    requires ApplyLogo(logo, image, kw).Some?
    ensures var o := Last(ApplyLogo(logo, image, kw).value.overlays);
      && 0 <= o.x && 0 <= o.y
      && (o.width <= image.width ==> o.x + o.width <= image.width)
      && (o.width > image.width ==> o.x == 0)
      && (o.height <= image.height ==> o.y + o.height <= image.height)
      && (o.height > image.height ==> o.y == 0)
  {
    ApplyLogoResult(logo, image, kw);
    var s := Merge(kw);
    var d := LogoDims(image.width, logo.value, s.size).value;
    PositionIsClamped(image.width, image.height, d, s);
  }

  function Last(s: seq<Overlay>): Overlay
    requires s != []
  {
    s[|s| - 1]
  }

  /** A 1000x800 photo with a 200x100 logo at 20% size, bottom right, margin 20,
      opacity 1: the logo stays 200x100 and lands at (780, 680). */
  lemma BottomRightScenario()
    ensures ApplyLogo(Some(Image(200, 100, RGBA, [])), Image(1000, 800, RGB, []),
                      Overrides(Some("bottom_right"), Some(0.2), Some(1.0), Some(20), None))
         == Some(Image(1000, 800, RGB, [Overlay(780, 680, 200, 100, 1.0, true)]))
  {
    var d := LogoDims(1000, Image(200, 100, RGBA, []), 0.2);
    assert ScaledWidth(1000, 0.2) == Trunc(1000.0 * 0.2) == 200;
    assert ScaledHeight(100, 200, 200) == Trunc(100.0 * (200.0 / 200.0)) == 100;
    assert d == Some(Dims(200, 100));
    var s := Merge(Overrides(Some("bottom_right"), Some(0.2), Some(1.0), Some(20), None));
    assert s == Settings("bottom_right", 0.2, 1.0, 20, None);
    assert AnchorOf("bottom_right") == (Config.One, Config.One);
    assert AxisOffset(800, Config.One, 20) == 780;
    assert AxisOffset(700, Config.One, 20) == 680;
    assert Position(1000, 800, Dims(200, 100), s) == (780, 680);
    var o := Overlay(780, 680, 200, 100, 1.0, true);
    var none: seq<Overlay> := [];
    assert none + [o] == [o];
    var img := Image(1000, 800, RGB, []);
    assert img.(overlays := img.overlays + [o]) == Image(1000, 800, RGB, [o]);
  }
}
