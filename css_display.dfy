/**
 * The code panel (src/components/GradientCSSDisplay.tsx): the CSS of the
 * configuration being edited, rendered in the browser, and the nearest
 * Tailwind gradient class.
 */
module CssDisplay {
  import opened Wrappers
  import opened Text
  import opened GradientCss
  import opened Generator

  // ---------------------------------------------------------------------------
  // CSS

  /** `${s.color} ${s.position}%`. */
  function ColorStopCss(s: ColorStop): string {
    s.color + " " + IntToString(s.position) + "%"
  }

  /** The stops rendered one by one, in order (`map`). */
  function ColorStopParts(cs: seq<ColorStop>): seq<string> {
    seq(|cs|, i requires 0 <= i < |cs| => ColorStopCss(cs[i]))
  }

  /** `getCSSGradient`. */
  function CssGradient(c: GradientConfig): string {
    "linear-gradient(" + IntToString(c.angle) + "deg, " + Join(ColorStopParts(c.colorStops), ", ") + ")"
  }

  /** The panel shows exactly what the backend stores for the same angle and stops. */
  lemma CssMatchesBackend(c: GradientConfig)
    ensures CssGradient(c) == GenerateGradientCss(c.angle, ToStops(c.colorStops))
  {
    var cs := c.colorStops;
    var st := ToStops(cs);
    assert ColorStopParts(cs) == StopParts(st);
  }

  /** With `#rrggbb` colours the panel's CSS can be read back into the angle and stops it shows. */
  lemma CssGradientRoundTrip(c: GradientConfig)
    requires forall i :: 0 <= i < |c.colorStops| ==> IsHexColor(c.colorStops[i].color)
    ensures ParseGradientCss(CssGradient(c)) == Some((c.angle, ToStops(c.colorStops)))
  {
    CssMatchesBackend(c);
    assert HexColoured(ToStops(c.colorStops));
    ParseGradientCssRoundTrip(c.angle, ToStops(c.colorStops));
  }

  // ---------------------------------------------------------------------------
  // Tailwind

  const TailwindPrefix: string := "bg-gradient-"

  /** The eight compass angles Tailwind names. */
  const AngleMap: map<int, string> := map[
    0 := "to-t", 45 := "to-tr", 90 := "to-r", 135 := "to-br",
    180 := "to-b", 225 := "to-bl", 270 := "to-l", 315 := "to-tl"]

  /** The direction: a named one, or the arbitrary value `[<angle>deg]`. */
  function Direction(angle: int): string {
    if angle in AngleMap then AngleMap[angle] else "[" + IntToString(angle) + "deg]"
  }

  /** `getTailwindGradient`: always `bg-gradient-` followed by the direction. */
  function TailwindGradient(angle: int): (r: string)
    ensures |r| > |TailwindPrefix| && r[..|TailwindPrefix|] == TailwindPrefix
    ensures angle in AngleMap ==> r[|TailwindPrefix|..] == AngleMap[angle]
    ensures angle !in AngleMap ==> r[|TailwindPrefix|..] == "[" + IntToString(angle) + "deg]"
  {
    TailwindPrefix + Direction(angle)
  }

  /** The named angles are exactly the multiples of 45 from 0 to 315. */
  lemma NamedAngles(angle: int)
    ensures angle in AngleMap <==> 0 <= angle < 360 && angle % 45 == 0
  {
    if 0 <= angle < 360 && angle % 45 == 0 {
      var q := angle / 45;
      assert 0 <= q < 8 && angle == 45 * q;
    }
  }

  /** Every named direction starts with `to-`. */
  lemma NamedDirections(angle: int)
    requires angle in AngleMap
    ensures |AngleMap[angle]| >= 4 && AngleMap[angle][..3] == "to-"
  {
  }

  /** Different angles get different directions (the named ones are distinct). */
  lemma NamedDirectionsDistinct(a: int, b: int)
    requires a in AngleMap && b in AngleMap && a != b
    ensures AngleMap[a] != AngleMap[b]
  {
    NamedAngles(a);
    NamedAngles(b);
  }

  /** The class determines the angle: two angles with the same class are equal. */
  lemma TailwindGradientInjective(a: int, b: int)
    requires TailwindGradient(a) == TailwindGradient(b)
    ensures a == b
  {
    var n := |TailwindPrefix|;
    var da := TailwindGradient(a)[n..];
    assert da == TailwindGradient(b)[n..];
    if a in AngleMap && b in AngleMap {
      if a != b {
        NamedDirectionsDistinct(a, b);
      }
    } else if a in AngleMap {
      NamedDirections(a);
    } else if b in AngleMap {
      NamedDirections(b);
    } else {
      var sa := IntToString(a);
      var sb := IntToString(b);
      assert |sa| == |sb|;
      assert sa == da[1..1 + |sa|];
      assert sb == da[1..1 + |sb|];
      IntToStringInjective(a, b);
    }
  }
}
