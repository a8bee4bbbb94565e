/**
 * The stop editor (src/components/GradientEditor.tsx). Each handler builds
 * a new configuration from the current one: update one stop, add a white
 * stop at 50% and re-sort by position, remove one stop, and the rules for
 * typed colours. The list is kept between two and four stops by guards
 * that match the buttons offered. The editor also keeps the colour count
 * used for random variants.
 */
module Editor {
  import opened Wrappers
  import opened Text
  import opened Generator

  const MinStops: nat := 2
  const MaxStops: nat := 4

  // ---------------------------------------------------------------------------
  // Updating one stop

  /** `Partial<ColorStop>`: the fields an update overrides. */
  datatype StopUpdate = StopUpdate(color: Option<string>, position: Option<int>)

  /** `{ ...stop, ...updates }`. */
  function ApplyUpdate(s: ColorStop, u: StopUpdate): ColorStop {
    ColorStop(if u.color.Some? then u.color.value else s.color,
              if u.position.Some? then u.position.value else s.position)
  }

  /**
   * `updateColorStop`: a copy of the list with slot `index` overridden by
   * the fields present in the update; every other slot and every other
   * field of the configuration is kept.
   */
  function UpdateColorStop(c: GradientConfig, index: nat, u: StopUpdate): (r: GradientConfig)
    requires index < |c.colorStops|
    ensures r == c.(colorStops := r.colorStops)
    ensures |r.colorStops| == |c.colorStops|
    ensures forall i :: 0 <= i < |r.colorStops| && i != index ==> r.colorStops[i] == c.colorStops[i]
    ensures r.colorStops[index].color == (if u.color.Some? then u.color.value else c.colorStops[index].color)
    ensures r.colorStops[index].position == (if u.position.Some? then u.position.value else c.colorStops[index].position)
  {
    c.(colorStops := c.colorStops[index := ApplyUpdate(c.colorStops[index], u)])
  }

  // ---------------------------------------------------------------------------
  // Sorting by position

  /** Positions never decrease along the list. */
  predicate SortedByPosition(s: seq<ColorStop>) {
    forall i, j :: 0 <= i < j < |s| ==> s[i].position <= s[j].position
  }

  /** The stops of `s` at position `p`, in order. */
  function AtPosition(s: seq<ColorStop>, p: int): seq<ColorStop> {
    if s == [] then []
    else AtPosition(s[..|s| - 1], p) + (if s[|s| - 1].position == p then [s[|s| - 1]] else [])
  }

  /** Insert `x` into a sorted list after every stop whose position is not greater. */
  function Insert(x: ColorStop, s: seq<ColorStop>): seq<ColorStop>
    decreases |s|
  {
    if s == [] then [x]
    else if s[|s| - 1].position <= x.position then s + [x]
    else Insert(x, s[..|s| - 1]) + [s[|s| - 1]]
  }

  /**
   * `sort((a, b) => a.position - b.position)`. The built-in sort is
   * stable, so the result is determined: the list sorted by position with
   * stops of equal position in their original order.
   */
  function SortByPosition(s: seq<ColorStop>): seq<ColorStop>
    decreases |s|
  {
    if s == [] then [] else Insert(s[|s| - 1], SortByPosition(s[..|s| - 1]))
  }

  /** Every stop of `s` sits at or below `b`. */
  predicate AllAtMost(s: seq<ColorStop>, b: int) {
    forall i :: 0 <= i < |s| ==> s[i].position <= b
  }

  /** Inserting a stop at or below `b` keeps every stop at or below `b`. */
  lemma {:induction false} InsertAtMost(x: ColorStop, s: seq<ColorStop>, b: int)
    requires AllAtMost(s, b) && x.position <= b
    ensures AllAtMost(Insert(x, s), b)
    decreases |s|
  {
    if s != [] && s[|s| - 1].position > x.position {
      InsertAtMost(x, s[..|s| - 1], b);
    }
  }

  /** Inserting into a sorted list keeps it sorted. */
  lemma {:induction false} InsertSorted(x: ColorStop, s: seq<ColorStop>)
    requires SortedByPosition(s)
    ensures SortedByPosition(Insert(x, s))
    decreases |s|
  {
    if s != [] && s[|s| - 1].position > x.position {
      var front := s[..|s| - 1];
      var last := s[|s| - 1];
      InsertSorted(x, front);
      InsertAtMost(x, front, last.position);
      var ins := Insert(x, front);
      assert Insert(x, s) == ins + [last];
    }
  }

  /** Inserting adds `x` once and loses nothing. */
  lemma {:induction false} InsertMultiset(x: ColorStop, s: seq<ColorStop>)
    ensures multiset(Insert(x, s)) == multiset(s) + multiset{x}
    decreases |s|
  {
    if s != [] && s[|s| - 1].position > x.position {
      var front := s[..|s| - 1];
      InsertMultiset(x, front);
      assert s == front + [s[|s| - 1]];
    }
  }

  /** `AtPosition` distributes over appending one stop. */
  lemma AtPositionSnoc(s: seq<ColorStop>, y: ColorStop, p: int)
    ensures AtPosition(s + [y], p) == AtPosition(s, p) + (if y.position == p then [y] else [])
  {
    assert (s + [y])[..|s + [y]| - 1] == s;
  }

  /** Inserting puts `x` after every stop already at its position. */
  lemma {:induction false} InsertAtPosition(x: ColorStop, s: seq<ColorStop>, p: int)
    ensures AtPosition(Insert(x, s), p) == AtPosition(s, p) + (if x.position == p then [x] else [])
    decreases |s|
  {
    if s == [] {
      AtPositionSnoc([], x, p);
    } else if s[|s| - 1].position <= x.position {
      AtPositionSnoc(s, x, p);
    } else {
      var front := s[..|s| - 1];
      var last := s[|s| - 1];
      var X := if x.position == p then [x] else [];
      var L := if last.position == p then [last] else [];
      assert X == [] || L == [];
      var ins := Insert(x, front);
      assert Insert(x, s) == ins + [last];
      InsertAtPosition(x, front, p);
      AtPositionSnoc(ins, last, p);
      assert AtPosition(s, p) == AtPosition(front, p) + L;
      assert AtPosition(Insert(x, s), p) == AtPosition(front, p) + X + L;
    }
  }


  /** The sort gives a sorted permutation of its input in which stops of equal position keep their order. */
  lemma SortByPositionSpec(s: seq<ColorStop>)
    ensures SortedByPosition(SortByPosition(s))
    ensures multiset(SortByPosition(s)) == multiset(s)
    ensures forall p :: AtPosition(SortByPosition(s), p) == AtPosition(s, p)
  {
    SortSorted(s);
    SortPermutes(s);
    forall p ensures AtPosition(SortByPosition(s), p) == AtPosition(s, p) {
      SortStable(s, p);
    }
  }

  lemma {:induction false} SortSorted(s: seq<ColorStop>)
    ensures SortedByPosition(SortByPosition(s))
    decreases |s|
  {
    if s != [] {
      SortSorted(s[..|s| - 1]);
      InsertSorted(s[|s| - 1], SortByPosition(s[..|s| - 1]));
    }
  }

  lemma {:induction false} SortPermutes(s: seq<ColorStop>)
    ensures multiset(SortByPosition(s)) == multiset(s)
    decreases |s|
  {
    if s != [] {
      var front := s[..|s| - 1];
      SortPermutes(front);
      InsertMultiset(s[|s| - 1], SortByPosition(front));
      assert s == front + [s[|s| - 1]];
    }
  }

  lemma {:induction false} SortStable(s: seq<ColorStop>, p: int)
    ensures AtPosition(SortByPosition(s), p) == AtPosition(s, p)
    decreases |s|
  {
    if s != [] {
      var front := s[..|s| - 1];
      var last := s[|s| - 1];
      SortStable(front, p);
      InsertAtPosition(last, SortByPosition(front), p);
      assert s == front + [last];
      AtPositionSnoc(front, last, p);
    }
  }

  // ---------------------------------------------------------------------------
  // Adding and removing stops

  /** The stop `addColorStop` appends before sorting. */
  const NewStop: ColorStop := ColorStop("#FFFFFF", 50)

  /** The add button is offered. */
  predicate CanAdd(c: GradientConfig) {
    |c.colorStops| < MaxStops
  }

  /** The remove buttons are offered. */
  predicate CanRemove(c: GradientConfig) {
    |c.colorStops| > MinStops
  }

  /** `addColorStop`: nothing at four or more stops; otherwise the stops plus a white one at 50%, sorted by position. */
  function AddColorStop(c: GradientConfig): GradientConfig {
    if |c.colorStops| >= MaxStops then c
    else c.(colorStops := SortByPosition(c.colorStops + [NewStop]))
  }

  /**
   * Adding a stop when the button is offered gives one more stop: the old
   * ones and the new white stop, sorted by position, stops of equal
   * position in their earlier order; otherwise nothing changes.
   */
  lemma AddColorStopSpec(c: GradientConfig)
    ensures var r := AddColorStop(c);
      && r == c.(colorStops := r.colorStops)
      && (!CanAdd(c) ==> r == c)
      && (CanAdd(c) ==>
            && |r.colorStops| == |c.colorStops| + 1
            && SortedByPosition(r.colorStops)
            && multiset(r.colorStops) == multiset(c.colorStops) + multiset{NewStop}
            && forall p :: AtPosition(r.colorStops, p) == AtPosition(c.colorStops + [NewStop], p))
  {
    if CanAdd(c) {
      SortByPositionSpec(c.colorStops + [NewStop]);
      assert |multiset(AddColorStop(c).colorStops)| == |multiset(c.colorStops + [NewStop])|;
    }
  }

  /** The stops with slot `index` left out (`filter((_, i) => i !== index)`). */
  function WithoutIndex(s: seq<ColorStop>, index: nat): seq<ColorStop> {
    if s == [] then []
    else WithoutIndex(s[..|s| - 1], index) + (if |s| - 1 == index then [] else [s[|s| - 1]])
  }

  /** Filtering out slot `index` removes exactly that slot and keeps the others in order. */
  lemma {:induction false} WithoutIndexSpec(s: seq<ColorStop>, index: nat)
    ensures index < |s| ==> WithoutIndex(s, index) == s[..index] + s[index + 1..]
    ensures index >= |s| ==> WithoutIndex(s, index) == s
    decreases |s|
  {
    if s != [] {
      var front := s[..|s| - 1];
      WithoutIndexSpec(front, index);
      if index < |s| - 1 {
        assert front[..index] == s[..index];
        assert front[index + 1..] + [s[|s| - 1]] == s[index + 1..];
      } else if index == |s| - 1 {
        assert front == s[..index];
        assert s[index + 1..] == [];
      } else {
        assert front + [s[|s| - 1]] == s;
      }
    }
  }

  /** `removeColorStop`: nothing at two or fewer stops; otherwise drop slot `index`. */
  function RemoveColorStop(c: GradientConfig, index: nat): GradientConfig {
    if |c.colorStops| <= MinStops then c
    else c.(colorStops := WithoutIndex(c.colorStops, index))
  }

  /**
   * Removing a stop when the buttons are offered drops exactly the stop at
   * `index` and keeps the others in order; otherwise nothing changes.
   */
  lemma RemoveColorStopSpec(c: GradientConfig, index: nat)
    requires index < |c.colorStops|
    ensures var r := RemoveColorStop(c, index);
      && r == c.(colorStops := r.colorStops)
      && (!CanRemove(c) ==> r == c)
      && (CanRemove(c) ==>
            && |r.colorStops| == |c.colorStops| - 1
            && (forall i :: 0 <= i < index ==> r.colorStops[i] == c.colorStops[i])
            && (forall i :: index <= i < |r.colorStops| ==> r.colorStops[i] == c.colorStops[i + 1])
            && multiset(r.colorStops) + multiset{c.colorStops[index]} == multiset(c.colorStops))
  {
    if CanRemove(c) {
      var s := c.colorStops;
      WithoutIndexSpec(s, index);
      assert s == s[..index] + [s[index]] + s[index + 1..];
    }
  }

  /** From two to four stops, adding and removing (wherever offered) stay within two to four. */
  lemma StopCountStaysInRange(c: GradientConfig, index: nat)
    requires MinStops <= |c.colorStops| <= MaxStops
    ensures MinStops <= |AddColorStop(c).colorStops| <= MaxStops
    ensures MinStops <= |RemoveColorStop(c, index).colorStops| <= MaxStops
  {
    AddColorStopSpec(c);
    WithoutIndexSpec(c.colorStops, index);
  }

  // ---------------------------------------------------------------------------
  // Typed colours

  /**
   * A typed value is taken while it starts with `#` and is at most seven
   * long, counted as JavaScript's `length` counts (UTF-16 code units).
   */
  predicate AcceptsTyped(value: string) {
    |value| > 0 && value[0] == '#' && Utf16Length(value) <= 7
  }

  /** The text field's change handler. */
  function OnColorText(c: GradientConfig, index: nat, value: string): GradientConfig
    requires index < |c.colorStops|
  {
    if AcceptsTyped(value) then UpdateColorStop(c, index, StopUpdate(Some(value), None)) else c
  }

  /** A typed colour reaches the stop exactly when it is accepted; nothing else changes. */
  lemma OnColorTextSpec(c: GradientConfig, index: nat, value: string)
    requires index < |c.colorStops|
    ensures var r := OnColorText(c, index, value);
      && (AcceptsTyped(value) ==> r.colorStops == c.colorStops[index := c.colorStops[index].(color := value)])
      && (!AcceptsTyped(value) ==> r == c)
      && r == c.(colorStops := r.colorStops)
  {
    if AcceptsTyped(value) {
      var r := OnColorText(c, index, value);
      assert r.colorStops == c.colorStops[index := c.colorStops[index].(color := value)];
    }
  }

  /** Every full `#rrggbb` colour is accepted while typing. */
  lemma HexColorsAccepted(value: string)
    requires IsHexColor(value)
    ensures AcceptsTyped(value)
  {
    assert forall i :: 0 <= i < |value| ==> value[i] as int < 0x1_0000 by {
      forall i | 0 <= i < |value| ensures value[i] as int < 0x1_0000 {
        if i > 0 { assert IsHexDigit(value[i]); }
      }
    }
  }

  /**
   * Six characters after `#` are refused when one of them lies outside the
   * Basic Multilingual Plane, since JavaScript counts it twice.
   */
  lemma AstralCharacterCountsTwice()
    ensures var value := "#aaaaa\U{1F600}";
      |value| == 7 && !AcceptsTyped(value)
  {
    var value := "#aaaaa\U{1F600}";
    assert value[6] as int >= 0x1_0000;
  }

  /** The text field's blur handler: an ill-formed value writes the stop's own colour back. */
  function OnColorBlur(c: GradientConfig, index: nat, value: string): GradientConfig
    requires index < |c.colorStops|
  {
    if !IsHexColor(value) then UpdateColorStop(c, index, StopUpdate(Some(c.colorStops[index].color), None)) else c
  }

  /** Blur never changes the configuration. */
  lemma OnColorBlurUnchanged(c: GradientConfig, index: nat, value: string)
    requires index < |c.colorStops|
    ensures OnColorBlur(c, index, value) == c
  {
    if !IsHexColor(value) {
      var r := OnColorBlur(c, index, value);
      assert r.colorStops == c.colorStops;
    }
  }

  // ---------------------------------------------------------------------------
  // The colour count for variants

  const DefaultColorCount: int := 3

  /** The counts the buttons offer. */
  const ColorCountChoices: seq<int> := [2, 3, 4]

  /** The editor's own state: the colour count for the next variant. */
  class EditorState {
    var colorStopCount: int

    /** Starts at three. */
    constructor ()
      ensures colorStopCount == DefaultColorCount && colorStopCount in ColorCountChoices
    {
      colorStopCount := DefaultColorCount;
    }

    /** A count button. */
    method ChooseCount(count: int)
      requires count in ColorCountChoices
      modifies this
      ensures colorStopCount == count && colorStopCount in ColorCountChoices
    {
      colorStopCount := count;
    }
  }

  /** A variant made with any count the editor can hold has exactly that many stops. */
  lemma VariantHasChosenCount(c: GradientConfig, count: int, d: VariantDraws)
    requires count in ColorCountChoices
    requires ValidVariantDraws(count, d)
    ensures |GenerateVariant(c, count, d).colorStops| == count
    ensures MinStops <= |GenerateVariant(c, count, d).colorStops| <= MaxStops
  {
    assert count in {2, 3, 4};
  }
}
