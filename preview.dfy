/**
 * The pieces of the preview canvas (src/components/GradientPreview.tsx)
 * that do not depend on the platform: which stops reach the canvas
 * gradient, the gradient axis, the grain pass over the RGBA pixel buffer,
 * and where the overlay and centre images are drawn. Trigonometry is
 * supplied as the values of cos and sin, the grain as one integer offset
 * per pixel, and placement is ideal `real` arithmetic.
 */
module Preview {
  import opened Text
  import opened Generator

  /** The canvas size. */
  const Width: real := 1536.0
  const Height: real := 864.0

  // ---------------------------------------------------------------------------
  // Stops handed to `addColorStop`

  /** A canvas gradient stop: offset in 0..1 for percentages in 0..100. */
  datatype CanvasStop = CanvasStop(offset: real, color: string)

  function ToCanvasStop(s: ColorStop): CanvasStop {
    CanvasStop(s.position as real / 100.0, s.color)
  }

  /** The stops added to the canvas gradient, in order; malformed colours are skipped. */
  function CanvasStops(stops: seq<ColorStop>): seq<CanvasStop> {
    if stops == [] then []
    else
      var last := stops[|stops| - 1];
      CanvasStops(stops[..|stops| - 1]) + (if IsHexColor(last.color) then [ToCanvasStop(last)] else [])
  }

  /** The filter works stop by stop: it distributes over concatenation. */
  lemma {:induction false} CanvasStopsAppend(a: seq<ColorStop>, b: seq<ColorStop>)
    ensures CanvasStops(a + b) == CanvasStops(a) + CanvasStops(b)
    decreases |b|
  {
    if b == [] {
      assert a + b == a;
    } else {
      var b' := b[..|b| - 1];
      assert (a + b)[..|a + b| - 1] == a + b';
      CanvasStopsAppend(a, b');
    }
  }

  /** One stop reaches the canvas exactly when its colour is `#rrggbb`, at offset position/100. */
  lemma CanvasStopsSingle(s: ColorStop)
    ensures IsHexColor(s.color) ==> CanvasStops([s]) == [CanvasStop(s.position as real / 100.0, s.color)]
    ensures !IsHexColor(s.color) ==> CanvasStops([s]) == []
  {
    assert [s][..0] == [];
  }

  /** A canvas stop is present exactly when some well-formed stop produces it. */
  lemma {:induction false} CanvasStopsMembers(stops: seq<ColorStop>, c: CanvasStop)
    ensures c in CanvasStops(stops) <==>
      exists i :: 0 <= i < |stops| && IsHexColor(stops[i].color) && c == ToCanvasStop(stops[i])
    decreases |stops|
  {
    if stops != [] {
      var front := stops[..|stops| - 1];
      CanvasStopsMembers(front, c);
      if c in CanvasStops(front) {
        var i :| 0 <= i < |front| && IsHexColor(front[i].color) && c == ToCanvasStop(front[i]);
        assert stops[i] == front[i];
      }
      if exists i :: 0 <= i < |stops| && IsHexColor(stops[i].color) && c == ToCanvasStop(stops[i]) {
        var i :| 0 <= i < |stops| && IsHexColor(stops[i].color) && c == ToCanvasStop(stops[i]);
        if i < |front| {
          assert front[i] == stops[i];
        }
      }
    }
  }

  /** When every colour is well formed, every stop reaches the canvas, in order. */
  lemma {:induction false} CanvasStopsAllHex(stops: seq<ColorStop>)
    requires forall i :: 0 <= i < |stops| ==> IsHexColor(stops[i].color)
    ensures |CanvasStops(stops)| == |stops|
    ensures forall i :: 0 <= i < |stops| ==> CanvasStops(stops)[i] == ToCanvasStop(stops[i])
    decreases |stops|
  {
    if stops != [] {
      CanvasStopsAllHex(stops[..|stops| - 1]);
    }
  }

  // ---------------------------------------------------------------------------
  // The gradient axis

  datatype Axis = Axis(x0: real, y0: real, x1: real, y1: real)

  /** The endpoints passed to `createLinearGradient`, given cos and sin of the angle. */
  function AxisEndpoints(cos: real, sin: real): (a: Axis)
    ensures a.x0 + a.x1 == Width && a.y0 + a.y1 == Height
    ensures a.x1 - a.x0 == cos * Width && a.y1 - a.y0 == sin * Height
  {
    Axis(Width / 2.0 - (cos * Width) / 2.0, Height / 2.0 - (sin * Height) / 2.0,
         Width / 2.0 + (cos * Width) / 2.0, Height / 2.0 + (sin * Height) / 2.0)
  }

  // ---------------------------------------------------------------------------
  // The grain pass

  /** An element of a `Uint8ClampedArray`. */
  newtype Byte = x: int | 0 <= x < 256

  /** ToUint8Clamp for an integral value: saturate at 0 and 255. */
  function Clamp(v: int): (b: Byte)
    ensures v < 0 ==> b == 0
    ensures v > 255 ==> b == 255
    ensures 0 <= v <= 255 ==> b as int == v
  {
    if v < 0 then 0 else if v > 255 then 255 else v as Byte
  }

  /** One pixel after grain: red, green and blue shifted by `g` and clamped; alpha kept. */
  function GrainPixel(p: seq<Byte>, g: int): seq<Byte>
    requires |p| == 4
  {
    [Clamp(p[0] as int + g), Clamp(p[1] as int + g), Clamp(p[2] as int + g), p[3]]
  }

  /** The buffer after the grain pass, pixel by pixel, with `grain[k]` the offset of pixel `k`. */
  function Grained(data: seq<Byte>, grain: seq<int>): (r: seq<Byte>)
    requires |data| == 4 * |grain|
    ensures |r| == |data|
    decreases |grain|
  {
    if grain == [] then []
    else Grained(data[..|data| - 4], grain[..|grain| - 1]) + GrainPixel(data[|data| - 4..], grain[|grain| - 1])
  }

  /** Grain keeps alpha bytes and shifts the colour bytes of each pixel by that pixel's offset, saturating. */
  lemma {:induction false} GrainedSpec(data: seq<Byte>, grain: seq<int>)
    requires |data| == 4 * |grain|
    ensures forall i :: 0 <= i < |data| && i % 4 == 3 ==> Grained(data, grain)[i] == data[i]
    ensures forall i :: 0 <= i < |data| && i % 4 != 3 ==> Grained(data, grain)[i] == Clamp(data[i] as int + grain[i / 4])
    decreases |grain|
  {
    if grain != [] {
      var n := |data| - 4;
      var front := data[..n];
      GrainedSpec(front, grain[..|grain| - 1]);
      var r := Grained(data, grain);
      forall i | 0 <= i < |data|
        ensures i % 4 == 3 ==> r[i] == data[i]
        ensures i % 4 != 3 ==> r[i] == Clamp(data[i] as int + grain[i / 4])
      {
        if i < n {
          assert r[i] == Grained(front, grain[..|grain| - 1])[i];
          assert front[i] == data[i];
          assert i / 4 < |grain| - 1;
        } else {
          assert i / 4 == |grain| - 1;
          assert r[i] == GrainPixel(data[n..], grain[|grain| - 1])[i - n];
        }
      }
    }
  }

  /** The grain loop, in place over the image data, four bytes per step. */
  method ApplyGrain(data: array<Byte>, grain: seq<int>)
    requires data.Length == 4 * |grain|
    modifies data
    ensures data[..] == Grained(old(data[..]), grain)
  {
    ghost var original := data[..];
    ghost var target := Grained(original, grain);
    GrainedSpec(original, grain);
    var i := 0;
    while i < data.Length
      invariant 0 <= i <= data.Length && i % 4 == 0
      invariant forall k :: 0 <= k < i ==> data[k] == target[k]
      invariant forall k :: i <= k < data.Length ==> data[k] == original[k]
      decreases data.Length - i
    {
      var g := grain[i / 4];
      assert (i + 1) / 4 == i / 4 && (i + 2) / 4 == i / 4 && (i + 3) % 4 == 3;
      assert target[i] == Clamp(original[i] as int + g);
      assert target[i + 1] == Clamp(original[i + 1] as int + g);
      assert target[i + 2] == Clamp(original[i + 2] as int + g);
      assert target[i + 3] == original[i + 3];
      data[i] := Clamp(data[i] as int + g);
      data[i + 1] := Clamp(data[i + 1] as int + g);
      data[i + 2] := Clamp(data[i + 2] as int + g);
      i := i + 4;
    }
    assert data[..] == target;
  }

  // ---------------------------------------------------------------------------
  // Placing the overlay and centre images

  /** The drawn size of an image: width and height scaled together. */
  datatype Size = Size(w: real, h: real)

  /** `Math.min(box / width, box / height)`. */
  function FitScale(box: real, img: Dimensions): real
    requires img.width > 0 && img.height > 0
  {
    var sw := box / img.width as real;
    var sh := box / img.height as real;
    if sw <= sh then sw else sh
  }

  /** Scaling both sides by the smaller of the two ratios keeps both within `box` and one on it. */
  lemma FitScaleBounds(box: real, w: real, h: real, k: real)
    requires w > 0.0 && h > 0.0 && box >= 0.0
    requires k == if box / w <= box / h then box / w else box / h
    ensures 0.0 <= w * k <= box && 0.0 <= h * k <= box
    ensures w * k == box || h * k == box
  {
    if box / w <= box / h {
      assert w * k == box;
      assert h * k <= h * (box / h) == box;
    } else {
      assert h * k == box;
      assert w * k <= w * (box / w) == box;
    }
  }

  /** The image scaled to fit a `box` square: it fits, touches one side, and keeps its aspect ratio. */
  function FitWithin(box: real, img: Dimensions): (s: Size)
    requires img.width > 0 && img.height > 0 && box >= 0.0
    ensures 0.0 <= s.w <= box && 0.0 <= s.h <= box
    ensures s.w == box || s.h == box
    ensures s.w * img.height as real == s.h * img.width as real
  {
    var w := img.width as real;
    var h := img.height as real;
    var k := FitScale(box, img);
    FitScaleBounds(box, w, h, k);
    Size(w * k, h * k)
  }

  /** Where an image is drawn: its top-left corner and size. */
  datatype Placement = Placement(x: real, y: real, size: Size)

  /** Padding of the overlay from the top-left corner. */
  const OverlayPadding: real := 64.0

  /** The overlay image: fitted to `overlaySize`, drawn at (64, 64). */
  function OverlayPlacement(overlaySize: real, img: Dimensions): (p: Placement)
    requires img.width > 0 && img.height > 0 && overlaySize >= 0.0
    ensures p.x == OverlayPadding && p.y == OverlayPadding
    ensures p.size == FitWithin(overlaySize, img)
    ensures p.size.w <= overlaySize && p.size.h <= overlaySize
  {
    Placement(OverlayPadding, OverlayPadding, FitWithin(overlaySize, img))
  }

  /** The centre image: fitted to `centerSize`, centred on the canvas. */
  function CenterPlacement(centerSize: real, img: Dimensions): (p: Placement)
    requires img.width > 0 && img.height > 0 && centerSize >= 0.0
    ensures p.size == FitWithin(centerSize, img)
    ensures p.x + p.size.w / 2.0 == Width / 2.0 && p.y + p.size.h / 2.0 == Height / 2.0
    ensures p.x + p.size.w + p.x == Width && p.y + p.size.h + p.y == Height
  {
    var s := FitWithin(centerSize, img);
    Placement((Width - s.w) / 2.0, (Height - s.h) / 2.0, s)
  }

  /** A centre image no larger than the canvas height lies wholly inside the canvas. */
  lemma CenterPlacementInside(centerSize: real, img: Dimensions)
    requires img.width > 0 && img.height > 0 && 0.0 <= centerSize <= Height
    ensures var p := CenterPlacement(centerSize, img);
      0.0 <= p.x && p.x + p.size.w <= Width && 0.0 <= p.y && p.y + p.size.h <= Height
  {
  }
}
