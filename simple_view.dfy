/**
 * The simple screen (src/components/SimpleView.tsx): the fixed Default
 * Image gradient with grain, one optional centre image and a PNG export
 * under a fixed name. Its render repeats the preview's arithmetic; the
 * shared pieces come from `Preview` and `ExportName`.
 */
module SimpleView {
  import opened Wrappers
  import opened Text
  import opened GradientCss
  import opened Gradients
  import opened Generator
  import opened Preview
  import opened ExportName

  // ---------------------------------------------------------------------------
  // The fixed gradient

  const FixedName: string := "Default Image"
  const FixedAngle: int := 135
  const FixedStops: seq<ColorStop> := [ColorStop("#fdcbba", 0), ColorStop("#fbe0c1", 40), ColorStop("#fdf2e2", 100)]
  const FixedGrain: real := 0.15

  /** The fixed gradient is the backend's Default Image preset: name, angle, stops and grain. */
  lemma FixedGradientIsDefaultImage()
    ensures FixedName == DefaultImagePreset.name && FixedName == DefaultImageName
    ensures FixedAngle == DefaultImagePreset.angle
    ensures ToStops(FixedStops) == DefaultImagePreset.stops
    ensures FixedGrain == DefaultImagePreset.grainIntensity
  {
    assert ToStops(FixedStops) == DefaultImagePreset.stops;
  }

  /** The stops the simple screen adds to its canvas gradient: all of them, without a colour test. */
  function FixedCanvasStops(): (r: seq<CanvasStop>)
    ensures |r| == |FixedStops|
  {
    seq(|FixedStops|, i requires 0 <= i < |FixedStops| => ToCanvasStop(FixedStops[i]))
  }

  /** Skipping the colour test loses nothing: the preview's filter would keep every fixed stop. */
  lemma FixedStopsAllReachCanvas()
    ensures FixedCanvasStops() == CanvasStops(FixedStops)
  {
    forall i | 0 <= i < |FixedStops| ensures IsHexColor(FixedStops[i].color) {
      HexColourOf(FixedStops[i].color);
    }
    CanvasStopsAllHex(FixedStops);
  }

  // ---------------------------------------------------------------------------
  // The export name

  /** The literal filename `component-gradient-default-image-<timestamp>.png`. */
  function FixedExportFilename(timestamp: nat): string {
    "component-gradient-default-image-" + NatToString(timestamp) + ".png"
  }

  /** The slug of the fixed name. */
  lemma FixedNameSlug()
    ensures Slug(FixedName) == "default-image"
  {
    assert "Default" + " " + "Image" == FixedName;
    assert "default" + "-" + "image" == "default-image";
    assert NoSpace("Image") && ToLower("Image") == "image";
    assert forall i :: 0 <= i < |"image"| ==> IsSlugChar("image"[i]);
    WordSlug("Default", "default");
    WordSlug("Image", "image");
    SlugTwoWords("Default", "Image");
  }

  /** The literal head of the fixed filename is the generic prefix, the fixed slug and a hyphen. */
  lemma FixedPrefix()
    ensures FilenamePrefix + "default-image" + "-" == "component-gradient-default-image-"
  {
  }

  /** The fixed filename is the generic export name of the fixed gradient. */
  lemma FixedExportFilenameIsGeneric(timestamp: nat)
    ensures FixedExportFilename(timestamp) == ExportFilename(FixedName, timestamp)
  {
    var ts := NatToString(timestamp);
    FixedNameSlug();
    assert ExportFilename(FixedName, timestamp) == FilenamePrefix + "default-image" + "-" + ts + FilenameSuffix;
    FixedPrefix();
  }

  // ---------------------------------------------------------------------------
  // Screen state

  /** The centre-size slider's range. */
  const MinCenterSize: int := 100
  const MaxCenterSize: int := 800

  class SimpleViewState {
    var center: Option<Dimensions>
    var centerSize: int

    /** No image, centre size 400. */
    constructor ()
      ensures center == None && centerSize == 400
      ensures MinCenterSize <= centerSize <= MaxCenterSize
    {
      center := None;
      centerSize := 400;
    }

    /**
     * `handleCenterImageUpload`: a rejected file (size first, then type)
     * leaves the image as it was; an accepted one that decodes replaces it.
     */
    method CenterImageUpload(size: nat, mimeType: string, decoded: Option<Dimensions>) returns (rejected: Option<UploadError>)
      modifies this`center
      ensures rejected == CheckUpload(size, mimeType)
      ensures rejected.None? && decoded.Some? ==> center == decoded
      ensures rejected.Some? || decoded.None? ==> center == old(center)
    {
      rejected := CheckUpload(size, mimeType);
      if rejected.None? && decoded.Some? {
        center := decoded;
      }
    }

    /** `handleRemoveCenterImage`. */
    method RemoveCenterImage()
      modifies this`center
      ensures center == None
    {
      center := None;
    }

    /** The slider. */
    method SetCenterSize(size: int)
      requires MinCenterSize <= size <= MaxCenterSize
      modifies this`centerSize
      ensures centerSize == size
    {
      centerSize := size;
    }

    /** Where the centre image is drawn, if there is one. */
    function CenterDrawn(): (p: Option<Placement>)
      reads this
      requires center.Some? ==> center.value.width > 0 && center.value.height > 0
      requires MinCenterSize <= centerSize <= MaxCenterSize
      ensures p.Some? <==> center.Some?
      ensures p.Some? ==> p.value == CenterPlacement(centerSize as real, center.value)
      ensures p.Some? ==>
        && 0.0 <= p.value.x && p.value.x + p.value.size.w <= Width
        && 0.0 <= p.value.y && p.value.y + p.value.size.h <= Height
    {
      if center.None? then None
      else
        CenterPlacementInside(centerSize as real, center.value);
        Some(CenterPlacement(centerSize as real, center.value))
    }
  }

  /** The simple screen's grain loop: the same pass over the pixel buffer as the preview's. */
  method ApplyFixedGrain(data: array<Byte>, grain: seq<int>)
    requires data.Length == 4 * |grain|
    modifies data
    ensures forall i :: 0 <= i < data.Length && i % 4 == 3 ==> data[i] == old(data[i])
    ensures forall i :: 0 <= i < data.Length && i % 4 != 3 ==> data[i] == Clamp(old(data[i]) as int + grain[i / 4])
  {
    ghost var original := data[..];
    ApplyGrain(data, grain);
    GrainedSpec(original, grain);
  }
}
