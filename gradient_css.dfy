/**
 * The derived CSS string of a gradient record (`generateGradientCSS` in
 * convex/gradients.ts): `linear-gradient(<angle>deg, <color> <pos>%, ...)`,
 * stops in stored order, joined with ", ".
 *
 * Beside the serialiser the module holds a reader for the same format; the
 * round trip shows that the string carries exactly the angle and the stops
 * it was built from, so a record whose css is regenerated on every write
 * can never disagree with its own angle and stops.
 */
module GradientCss {
  import opened Wrappers
  import opened Text

  /** A colour stop as the backend stores it: a percentage and a colour. */
  datatype Stop = Stop(position: int, color: string)

  const Prefix: string := "linear-gradient("
  const AngleSuffix: string := "deg, "
  const Separator: string := ", "

  /** One stop rendered as `<color> <position>%`. */
  function StopCss(s: Stop): string {
    s.color + " " + IntToString(s.position) + "%"
  }

  /** The stops rendered one by one, in input order. */
  function StopParts(stops: seq<Stop>): (parts: seq<string>)
    ensures |parts| == |stops|
  {
    seq(|stops|, i requires 0 <= i < |stops| => StopCss(stops[i]))
  }

  /** The rendered stops joined with ", ". */
  function StopsCss(stops: seq<Stop>): string {
    Join(StopParts(stops), Separator)
  }

  /** `generateGradientCSS({angle, stops})`. */
  function GenerateGradientCss(angle: int, stops: seq<Stop>): string {
    Prefix + IntToString(angle) + AngleSuffix + StopsCss(stops) + ")"
  }

  /** All colours are `#rrggbb`; the reader below needs this to find where a colour ends. */
  predicate HexColoured(stops: seq<Stop>) {
    forall i :: 0 <= i < |stops| ==> IsHexColor(stops[i].color)
  }

  // ---------------------------------------------------------------------------
  // Shape of the rendering

  /** No stops: the list between the angle and the closing parenthesis is empty. */
  lemma EmptyStopsCss(angle: int)
    ensures GenerateGradientCss(angle, []) == "linear-gradient(" + IntToString(angle) + "deg, )"
  {
    assert StopsCss([]) == "";
  }

  /** The joined list of two or more stops is the first stop, ", ", and the rest. */
  lemma StopsCssCons(stops: seq<Stop>)
    requires 2 <= |stops|
    ensures StopsCss(stops) == StopCss(stops[0]) + Separator + StopsCss(stops[1..])
  {
    assert StopParts(stops)[1..] == StopParts(stops[1..]);
  }

  /** A single stop is rendered on its own, without a separator. */
  lemma StopsCssSingle(s: Stop)
    ensures StopsCss([s]) == StopCss(s)
  {
  }

  /** The list of stops is empty exactly when there are no stops. */
  lemma StopsCssEmpty(stops: seq<Stop>)
    requires HexColoured(stops)
    ensures StopsCss(stops) == "" <==> stops == []
  {
    if stops != [] {
      if |stops| == 1 {
        assert |StopsCss(stops)| >= |stops[0].color| == 7;
      } else {
        StopsCssCons(stops);
        assert |StopsCss(stops)| >= |stops[0].color| == 7;
      }
    }
  }

  // ---------------------------------------------------------------------------
  // Reading the format back

  /** The length of the run of decimal digits at the start of `s`. */
  function DigitRun(s: string): (n: nat)
    ensures n <= |s|
    ensures forall i :: 0 <= i < n ==> IsDecimalDigit(s[i])
    ensures n < |s| ==> !IsDecimalDigit(s[n])
  {
    if s != [] && IsDecimalDigit(s[0]) then 1 + DigitRun(s[1..]) else 0
  }

  /** An optionally signed decimal integer at the start of `s`, with the number of characters it takes. */
  function ParseInt(s: string): (r: Option<(int, nat)>)
    ensures r.Some? ==> 1 <= r.value.1 <= |s|
  {
    if |s| > 0 && s[0] == '-' then
      var k := DigitRun(s[1..]);
      if k == 0 then None else Some((-(DigitsValue(s[1..1 + k], 10) as int), 1 + k))
    else
      var k := DigitRun(s);
      if k == 0 then None else Some((DigitsValue(s[..k], 10) as int, k))
  }

  /** One stop `<#rrggbb> <int>%` at the start of `s`, with the number of characters it takes. */
  function ParseStopHead(s: string): (r: Option<(Stop, nat)>)
    ensures r.Some? ==> 10 <= r.value.1 <= |s|
  {
    if |s| < 8 || !IsHexColor(s[..7]) || s[7] != ' ' then None
    else
      match ParseInt(s[8..])
      case None => None
      case Some((p, k)) =>
        if 8 + k < |s| && s[8 + k] == '%' then Some((Stop(p, s[..7]), 9 + k)) else None
  }

  /** A non-empty list of stops separated by ", ". */
  function ParseStopsNonEmpty(s: string): Option<seq<Stop>>
    decreases |s|
  {
    match ParseStopHead(s)
    case None => None
    case Some((st, n)) =>
      var after := s[n..];
      if after == [] then Some([st])
      else if |Separator| <= |after| && after[..|Separator|] == Separator then
        match ParseStopsNonEmpty(after[|Separator|..])
        case None => None
        case Some(more) => Some([st] + more)
      else None
  }

  /** A possibly empty list of stops. */
  function ParseStops(s: string): Option<seq<Stop>> {
    if s == [] then Some([]) else ParseStopsNonEmpty(s)
  }

  /** The angle and the stops between the parentheses: `<int>deg, <stops>`. */
  function ParseGradientBody(body: string): Option<(int, seq<Stop>)> {
    match ParseInt(body)
    case None => None
    case Some((a, k)) =>
      if k + |AngleSuffix| <= |body| && body[k..k + |AngleSuffix|] == AngleSuffix then
        match ParseStops(body[k + |AngleSuffix|..])
        case None => None
        case Some(stops) => Some((a, stops))
      else None
  }

  /** The angle and the stops of a `linear-gradient(...)` string, if it has the serialiser's format. */
  function ParseGradientCss(css: string): Option<(int, seq<Stop>)> {
    if |css| < |Prefix| + 1 || css[..|Prefix|] != Prefix || css[|css| - 1] != ')' then None
    else ParseGradientBody(css[|Prefix|..|css| - 1])
  }

  // ---------------------------------------------------------------------------
  // Round trip

  /** The digit run of a digit string followed by a non-digit is that digit string. */
  lemma {:induction false} DigitRunOfDigits(d: string, rest: string)
    requires forall i :: 0 <= i < |d| ==> IsDecimalDigit(d[i])
    requires rest == [] || !IsDecimalDigit(rest[0])
    ensures DigitRun(d + rest) == |d|
  {
    if d != [] {
      assert (d + rest)[1..] == d[1..] + rest;
      DigitRunOfDigits(d[1..], rest);
    }
  }

  /** An integer written by `IntToString` and followed by a non-digit reads back as itself. */
  lemma ParseIntRoundTrip(i: int, rest: string)
    requires rest == [] || !IsDecimalDigit(rest[0])
    ensures ParseInt(IntToString(i) + rest) == Some((i, |IntToString(i)|))
  {
    var m: nat := if i < 0 then -i else i;
    var d := NatToString(m);
    DigitRunOfDigits(d, rest);
    assert (d + rest)[..|d|] == d;
    assert DigitsValue(d, 10) == m;
    if i < 0 {
      var s := "-" + d + rest;
      assert s == IntToString(i) + rest;
      assert s[1..] == d + rest;
      assert s[1..1 + |d|] == d;
    } else {
      assert IntToString(i) + rest == d + rest;
      assert (d + rest)[0] == d[0];
    }
  }

  /** A rendered `#rrggbb` stop, whatever follows it, reads back as that stop. */
  lemma ParseStopHeadRoundTrip(s: Stop, tail: string)
    requires IsHexColor(s.color)
    ensures ParseStopHead(StopCss(s) + tail) == Some((s, |StopCss(s)|))
  {
    var p := IntToString(s.position);
    var text := StopCss(s) + tail;
    StopTextParts(s, tail);
    ParseIntRoundTrip(s.position, "%" + tail);
    assert text[8 + |p|] == (p + ("%" + tail))[|p|];
  }

  /** Where the colour, the space and the position sit in a rendered stop. */
  lemma StopTextParts(s: Stop, tail: string)
    requires |s.color| == 7
    ensures var text := StopCss(s) + tail;
      && |text| == 9 + |IntToString(s.position)| + |tail|
      && text[..7] == s.color && text[7] == ' '
      && text[8..] == IntToString(s.position) + ("%" + tail)
  {
    var text := StopCss(s) + tail;
    assert text == s.color + (" " + (IntToString(s.position) + ("%" + tail)));
  }

  /** A list of one rendered stop reads back as that stop. */
  lemma ParseOneStop(s: Stop)
    requires IsHexColor(s.color)
    ensures ParseStopsNonEmpty(StopsCss([s])) == Some([s])
  {
    StopsCssSingle(s);
    ParseStopHeadRoundTrip(s, "");
    assert StopCss(s) + "" == StopCss(s);
    assert StopCss(s)[|StopCss(s)|..] == [];
  }

  /** One reading step: a stop, then ", ", then the rest of the list. */
  lemma ParseStopsNonEmptyStep(head: string, restText: string, st: Stop, more: seq<Stop>)
    requires ParseStopHead(head + Separator + restText) == Some((st, |head|))
    requires ParseStopsNonEmpty(restText) == Some(more)
    ensures ParseStopsNonEmpty(head + Separator + restText) == Some([st] + more)
  {
    var text := head + Separator + restText;
    var after := text[|head|..];
    assert after == Separator + restText;
    assert after[..|Separator|] == Separator;
    assert after[|Separator|..] == restText;
  }

  /** A rendered stop, ", " and any text that reads back as a list, read back as one more stop. */
  lemma ParseStopThenList(s: Stop, restText: string, rest: seq<Stop>)
    requires IsHexColor(s.color)
    requires ParseStopsNonEmpty(restText) == Some(rest)
    ensures ParseStopsNonEmpty(StopCss(s) + Separator + restText) == Some([s] + rest)
  {
    ParseStopHeadRoundTrip(s, Separator + restText);
    assert StopCss(s) + (Separator + restText) == StopCss(s) + Separator + restText;
    ParseStopsNonEmptyStep(StopCss(s), restText, s, rest);
  }

  /** A rendered stop followed by ", " and a list that reads back, reads back as one more stop. */
  lemma ParseMoreStops(s: Stop, rest: seq<Stop>)
    requires IsHexColor(s.color) && rest != []
    requires ParseStopsNonEmpty(StopsCss(rest)) == Some(rest)
    ensures ParseStopsNonEmpty(StopsCss([s] + rest)) == Some([s] + rest)
  {
    var stops := [s] + rest;
    StopsCssCons(stops);
    assert stops[1..] == rest;
    ParseStopThenList(s, StopsCss(rest), rest);
  }

  /** Reading a rendered non-empty list of `#rrggbb` stops gives the stops back. */
  lemma {:induction false} ParseStopsNonEmptyRoundTrip(stops: seq<Stop>)
    requires stops != [] && HexColoured(stops)
    ensures ParseStopsNonEmpty(StopsCss(stops)) == Some(stops)
  {
    if |stops| == 1 {
      assert stops == [stops[0]];
      ParseOneStop(stops[0]);
    } else {
      ParseStopsNonEmptyRoundTrip(stops[1..]);
      ParseMoreStops(stops[0], stops[1..]);
      assert stops == [stops[0]] + stops[1..];
    }
  }

  /** Reading a rendered list of `#rrggbb` stops, empty or not, gives the stops back. */
  lemma ParseStopsRoundTrip(stops: seq<Stop>)
    requires HexColoured(stops)
    ensures ParseStops(StopsCss(stops)) == Some(stops)
  {
    StopsCssEmpty(stops);
    if stops != [] {
      ParseStopsNonEmptyRoundTrip(stops);
    }
  }

  /** The text between the parentheses reads back as the angle and the stops. */
  lemma ParseGradientBodyRoundTrip(angle: int, stops: seq<Stop>)
    requires HexColoured(stops)
    ensures ParseGradientBody(IntToString(angle) + AngleSuffix + StopsCss(stops)) == Some((angle, stops))
  {
    var a := IntToString(angle);
    var body := a + AngleSuffix + StopsCss(stops);
    assert body == a + (AngleSuffix + StopsCss(stops));
    ParseIntRoundTrip(angle, AngleSuffix + StopsCss(stops));
    assert body[|a|..|a| + |AngleSuffix|] == AngleSuffix;
    assert body[|a| + |AngleSuffix|..] == StopsCss(stops);
    ParseStopsRoundTrip(stops);
  }

  /** A string with the serialiser's prefix and closing parenthesis is read by its body. */
  lemma ParseGradientCssOf(body: string)
    ensures ParseGradientCss(Prefix + body + ")") == ParseGradientBody(body)
  {
    var css := Prefix + body + ")";
    assert css[..|Prefix|] == Prefix;
    assert css[|Prefix|..|css| - 1] == body;
  }

  /**
   * The derived CSS string determines its record's angle and stops: reading
   * it back gives exactly what it was generated from.
   */
  lemma ParseGradientCssRoundTrip(angle: int, stops: seq<Stop>)
    requires HexColoured(stops)
    ensures ParseGradientCss(GenerateGradientCss(angle, stops)) == Some((angle, stops))
  {
    var body := IntToString(angle) + AngleSuffix + StopsCss(stops);
    assert GenerateGradientCss(angle, stops) == Prefix + body + ")";
    ParseGradientCssOf(body);
    ParseGradientBodyRoundTrip(angle, stops);
  }

  /** Two records with `#rrggbb` stops share a CSS string only if they share angle and stops. */
  lemma GenerateGradientCssInjective(a1: int, s1: seq<Stop>, a2: int, s2: seq<Stop>)
    requires HexColoured(s1) && HexColoured(s2)
    requires GenerateGradientCss(a1, s1) == GenerateGradientCss(a2, s2)
    ensures a1 == a2 && s1 == s2
  {
    ParseGradientCssRoundTrip(a1, s1);
    ParseGradientCssRoundTrip(a2, s2);
  }
}
