/**
 * The main editing screen (src/components/GradientGenerator.tsx): the
 * editor's configuration and its conversion to and from stored records,
 * random pastel variants, the export filename, the upload checks, and the
 * screen's state (selection, the one-shot initialisation, the two
 * uploaded images) as it reacts to the user and calls the backend.
 *
 * `Math.random()` draws, the clock and the signed-in user are parameters;
 * an image that decodes is given by its dimensions, one that fails to
 * decode by `None`.
 */
module Generator {
  import opened Wrappers
  import opened Text
  import opened GradientCss
  import opened Gradients

  /** A stop as the editor holds it (colour first). */
  datatype ColorStop = ColorStop(color: string, position: int)

  /** The configuration being edited. */
  datatype GradientConfig = GradientConfig(
    name: string,
    angle: int,
    colorStops: seq<ColorStop>,
    grainIntensity: real,
    tags: seq<string>)

  /** The configuration shown before anything is loaded. */
  const InitialConfig: GradientConfig :=
    GradientConfig(DefaultImageName, 135,
      [ColorStop("#fdcbba", 0), ColorStop("#fbe0c1", 40), ColorStop("#fdf2e2", 100)],
      0.15, ["warm", "soft", "default"])

  /** Editor stops to stored stops (`{ position, color }`). */
  function ToStops(cs: seq<ColorStop>): seq<Stop> {
    seq(|cs|, i requires 0 <= i < |cs| => Stop(cs[i].position, cs[i].color))
  }

  /** Stored stops to editor stops. */
  function ToColorStops(stops: seq<Stop>): seq<ColorStop> {
    seq(|stops|, i requires 0 <= i < |stops| => ColorStop(stops[i].color, stops[i].position))
  }

  /** Converting editor stops to stored stops and back loses nothing, in either direction. */
  lemma StopsRoundTrip(cs: seq<ColorStop>, stops: seq<Stop>)
    ensures ToColorStops(ToStops(cs)) == cs
    ensures ToStops(ToColorStops(stops)) == stops
  {
    assert ToColorStops(ToStops(cs)) == cs;
    assert ToStops(ToColorStops(stops)) == stops;
  }

  /** The configuration loaded from a record when it is selected. */
  function ConfigOf(g: Gradient): GradientConfig {
    GradientConfig(g.name, g.angle, ToColorStops(g.stops), g.grainIntensity, g.tags)
  }

  /** The screen's initial configuration is the backend's Default Image preset. */
  lemma InitialConfigIsDefaultImage()
    ensures InitialConfig.name == DefaultImagePreset.name
    ensures InitialConfig.angle == DefaultImagePreset.angle
    ensures ToStops(InitialConfig.colorStops) == DefaultImagePreset.stops
    ensures InitialConfig.grainIntensity == DefaultImagePreset.grainIntensity
    ensures InitialConfig.tags == DefaultImagePreset.tags
  {
    assert ToStops(InitialConfig.colorStops) == DefaultImagePreset.stops;
  }

  // ---------------------------------------------------------------------------
  // Random pastel variants

  /** A `Math.random()` result. */
  predicate IsDraw(u: real) {
    0.0 <= u < 1.0
  }

  /** `Math.floor(Math.random() * 100 + 155)`: one channel of a pastel colour. */
  function PastelChannel(u: real): (c: nat)
    requires IsDraw(u)
    ensures 155 <= c <= 254
  {
    (u * 100.0 + 155.0).Floor
  }

  /** `s.padStart(n, fill)`. */
  function PadStart(s: string, n: nat, fill: char): (r: string)
    ensures |r| == if |s| < n then n else |s|
    ensures r[|r| - |s|..] == s
    ensures forall i :: 0 <= i < |r| - |s| ==> r[i] == fill
  {
    if |s| < n then seq(n - |s|, _ => fill) + s else s
  }

  /** `c.toString(16).padStart(2, "0")`: two lower-case hex digits that read back as `c`. */
  function Hex2(c: nat): (s: string)
    requires c < 256
    ensures |s| == 2
    ensures IsLowerHexDigit(s[0]) && IsLowerHexDigit(s[1])
    ensures IsHexDigit(s[0]) && IsHexDigit(s[1])
    ensures DigitsValue(s, 16) == c
  {
    var digits := NatToDigits(c, 16);
    assert c >= 16 ==> digits == Digits(c / 16, 16) + [DigitChar(c % 16)];
    var s := PadStart(digits, 2, '0');
    assert |digits| == 1 ==> s == ['0'] + digits && DigitsValue(s, 16) == DigitsValue(digits, 16) by {
      if |digits| == 1 {
        assert s[..1] == ['0'];
      }
    }
    s
  }

  /** The colour `#rrggbb` with each channel as two lower-case hex digits. */
  function PastelColor(r: nat, g: nat, b: nat): (s: string)
    requires r < 256 && g < 256 && b < 256
    ensures IsHexColor(s)
    ensures forall i :: 1 <= i < 7 ==> IsLowerHexDigit(s[i])
    ensures DigitsValue(s[1..3], 16) == r && DigitsValue(s[3..5], 16) == g && DigitsValue(s[5..7], 16) == b
  {
    var (hr, hg, hb) := (Hex2(r), Hex2(g), Hex2(b));
    ColourOfChannels(hr, hg, hb);
    "#" + hr + hg + hb
  }

  /** Three pairs of lower-case hex digits behind a `#` make a `#rrggbb` colour, each pair in its place. */
  lemma ColourOfChannels(hr: string, hg: string, hb: string)
    requires |hr| == 2 && |hg| == 2 && |hb| == 2
    requires IsLowerHexDigit(hr[0]) && IsLowerHexDigit(hr[1])
    requires IsLowerHexDigit(hg[0]) && IsLowerHexDigit(hg[1])
    requires IsLowerHexDigit(hb[0]) && IsLowerHexDigit(hb[1])
    ensures var s := "#" + hr + hg + hb;
      && IsHexColor(s)
      && (forall i :: 1 <= i < 7 ==> IsLowerHexDigit(s[i]))
      && s[1..3] == hr && s[3..5] == hg && s[5..7] == hb
  {
    var s := "#" + hr + hg + hb;
    assert s[1] == hr[0] && s[2] == hr[1] && s[3] == hg[0] && s[4] == hg[1] && s[5] == hb[0] && s[6] == hb[1];
    assert s[1..3] == hr && s[3..5] == hg && s[5..7] == hb;
  }

  /** The three draws (red, green, blue) behind one `generateRandomPastelColor` call. */
  datatype ChannelDraws = ChannelDraws(r: real, g: real, b: real)

  predicate ValidChannelDraws(d: ChannelDraws) {
    IsDraw(d.r) && IsDraw(d.g) && IsDraw(d.b)
  }

  /** `generateRandomPastelColor`, given its three draws. */
  function RandomPastelColor(d: ChannelDraws): (s: string)
    requires ValidChannelDraws(d)
    ensures IsHexColor(s)
    ensures 155 <= DigitsValue(s[1..3], 16) <= 254
    ensures 155 <= DigitsValue(s[3..5], 16) <= 254
    ensures 155 <= DigitsValue(s[5..7], 16) <= 254
  {
    PastelColor(PastelChannel(d.r), PastelChannel(d.g), PastelChannel(d.b))
  }

  /** The fixed positions of a variant with `colorCount` colours; none for any other count. */
  function VariantPositions(colorCount: int): (ps: seq<int>)
    ensures colorCount in {2, 3, 4} ==> |ps| == colorCount
    ensures colorCount !in {2, 3, 4} <==> ps == []
    ensures ps != [] ==> ps[0] == 0 && ps[|ps| - 1] == 100
    ensures forall i, j :: 0 <= i < j < |ps| ==> ps[i] < ps[j]
  {
    if colorCount == 2 then [0, 100]
    else if colorCount == 3 then [0, 50, 100]
    else if colorCount == 4 then [0, 33, 67, 100]
    else []
  }

  /** The stops of a variant: one random pastel colour per given position, in order. */
  function VariantStops(positions: seq<int>, draws: seq<ChannelDraws>): (r: seq<ColorStop>)
    requires |draws| == |positions|
    requires forall i :: 0 <= i < |draws| ==> ValidChannelDraws(draws[i])
    ensures |r| == |positions|
    ensures forall i :: 0 <= i < |r| ==> r[i].position == positions[i] && IsHexColor(r[i].color)
  {
    seq(|positions|, i requires 0 <= i < |positions| => VariantStop(positions[i], draws[i]))
  }

  /** One stop of a variant. */
  function VariantStop(position: int, d: ChannelDraws): (r: ColorStop)
    requires ValidChannelDraws(d)
    ensures r.position == position && IsHexColor(r.color)
  {
    ColorStop(RandomPastelColor(d), position)
  }

  /** The random inputs of `handleGenerateVariant`. */
  datatype VariantDraws = VariantDraws(colours: seq<ChannelDraws>, angle: real, grain: real)

  predicate ValidVariantDraws(colorCount: int, d: VariantDraws) {
    && |d.colours| == |VariantPositions(colorCount)|
    && (forall i :: 0 <= i < |d.colours| ==> ValidChannelDraws(d.colours[i]))
    && IsDraw(d.angle) && IsDraw(d.grain)
  }

  /**
   * The configuration `handleGenerateVariant` sets: name and tags kept,
   * a whole angle in [0, 359], fresh stops and a grain in [0.05, 0.15).
   */
  function GenerateVariant(c: GradientConfig, colorCount: int, d: VariantDraws): (r: GradientConfig)
    requires ValidVariantDraws(colorCount, d)
    ensures r.name == c.name && r.tags == c.tags
    ensures 0 <= r.angle <= 359
    ensures 0.05 <= r.grainIntensity < 0.15
    ensures r.colorStops == VariantStops(VariantPositions(colorCount), d.colours)
  {
    c.(angle := (d.angle * 360.0).Floor,
       colorStops := VariantStops(VariantPositions(colorCount), d.colours),
       grainIntensity := d.grain * 0.1 + 0.05)
  }

  /** A count other than 2, 3 or 4 gives a variant without stops. */
  lemma VariantOtherCountEmpty(c: GradientConfig, colorCount: int, d: VariantDraws)
    requires ValidVariantDraws(colorCount, d)
    requires colorCount !in {2, 3, 4}
    ensures GenerateVariant(c, colorCount, d).colorStops == []
  {
  }

  // ---------------------------------------------------------------------------
  // Upload checks

  const MaxUploadBytes: nat := 3 * 1024 * 1024

  const AcceptedTypes: seq<string> := ["image/png", "image/svg+xml"]

  datatype UploadError = TooLarge | UnsupportedType

  /** The checks of an upload handler: size first, then type. */
  function CheckUpload(size: nat, mimeType: string): (r: Option<UploadError>)
    ensures r == Some(TooLarge) <==> size > MaxUploadBytes
    ensures r == Some(UnsupportedType) <==> size <= MaxUploadBytes && mimeType != "image/png" && mimeType != "image/svg+xml"
    ensures r == None <==> size <= MaxUploadBytes && (mimeType == "image/png" || mimeType == "image/svg+xml")
  {
    if size > MaxUploadBytes then Some(TooLarge)
    else if mimeType !in AcceptedTypes then Some(UnsupportedType)
    else None
  }

  /** The pixel size of a decoded image. */
  datatype Dimensions = Dimensions(width: nat, height: nat)

  // ---------------------------------------------------------------------------
  // Default selection and the values the handlers send

  /** `gradients.find((g) => g.name === "Default Image") || gradients[0]`. */
  function InitialSelection(list: seq<Gradient>): (r: Option<Gradient>)
    ensures r.None? <==> |list| == 0
    ensures (exists i :: 0 <= i < |list| && list[i].name == DefaultImageName) ==>
      exists k :: 0 <= k < |list| && r == Some(list[k]) && list[k].name == DefaultImageName
        && forall j :: 0 <= j < k ==> list[j].name != DefaultImageName
    ensures (forall i :: 0 <= i < |list| ==> list[i].name != DefaultImageName) && |list| > 0 ==> r == Some(list[0])
  {
    match FirstNamed(list, DefaultImageName)
    case Some(k) => Some(list[k])
    case None => if |list| == 0 then None else Some(list[0])
  }

  /** The list holds exactly the table's rows. */
  lemma ListMembers(t: Table)
    ensures forall g :: g in List(t) <==> g in t.rows
  {
    var l := List(t);
    var n := |t.rows|;
    forall g ensures g in l <==> g in t.rows {
      if g in l {
        var m :| 0 <= m < n && l[m] == g;
        assert t.rows[n - 1 - m] == g;
      }
      if g in t.rows {
        var m :| 0 <= m < n && t.rows[m] == g;
        assert l[n - 1 - m] == g;
      }
    }
  }

  /** Ids strictly decreasing along a list. */
  predicate IdsDecreasing(l: seq<Gradient>) {
    forall i, j :: 0 <= i < j < |l| ==> l[i].id > l[j].id
  }

  /**
   * On a list with decreasing ids the initial selection is the row named
   * "Default Image" with the largest id, or the row with the largest id
   * when no row has that name.
   */
  lemma SelectionIsNewest(l: seq<Gradient>)
    requires IdsDecreasing(l) && |l| > 0
    ensures var r := InitialSelection(l).value;
      && r in l
      && ((exists g :: g in l && g.name == DefaultImageName) ==>
            r.name == DefaultImageName && forall g :: g in l && g.name == DefaultImageName ==> g.id <= r.id)
      && ((forall g :: g in l ==> g.name != DefaultImageName) ==> forall g :: g in l ==> g.id <= r.id)
  {
    match FirstNamed(l, DefaultImageName)
    case Some(k) =>
      forall g | g in l && g.name == DefaultImageName ensures g.id <= l[k].id {
        var m :| 0 <= m < |l| && l[m] == g;
        assert k <= m;
      }
    case None =>
      forall g | g in l ensures g.id <= l[0].id {
        var m :| 0 <= m < |l| && l[m] == g;
      }
  }

  /**
   * On the backend's newest-first list the screen selects the NEWEST row
   * named "Default Image" (the backend's own default lookup returns the
   * oldest); with no such row it selects the newest row of all.
   */
  lemma InitialSelectionNewest(t: Table)
    requires ValidTable(t) && |t.rows| > 0
    ensures var r := InitialSelection(List(t)).value;
      && r in t.rows
      && (HasDefaultImage(t) ==>
            r.name == DefaultImageName && forall g :: g in t.rows && g.name == DefaultImageName ==> g.id <= r.id)
      && (!HasDefaultImage(t) ==> forall g :: g in t.rows ==> g.id <= r.id)
  {
    var l := List(t);
    ListDecreasing(t);
    SelectionIsNewest(l);
    if HasDefaultImage(t) {
      var i :| 0 <= i < |t.rows| && t.rows[i].name == DefaultImageName;
      assert t.rows[i] in t.rows;
    }
  }

  /** The list of a valid table has decreasing ids and holds exactly the table's rows. */
  lemma ListDecreasing(t: Table)
    requires ValidTable(t)
    ensures |List(t)| == |t.rows|
    ensures IdsDecreasing(List(t))
    ensures forall g :: g in List(t) <==> g in t.rows
  {
    ListNewestFirst(t);
    ListMembers(t);
  }

  /** With exactly one row named "Default Image", the screen and the backend pick the same row. */
  lemma InitialSelectionAgreesWithBackend(t: Table)
    requires ValidTable(t)
    requires exists i ::
      && 0 <= i < |t.rows| && t.rows[i].name == DefaultImageName
      && forall j :: 0 <= j < |t.rows| && t.rows[j].name == DefaultImageName ==> j == i
    ensures InitialSelection(List(t)) == GetDefaultGradient(t)
  {
    var i :| 0 <= i < |t.rows| && t.rows[i].name == DefaultImageName
      && forall j :: 0 <= j < |t.rows| && t.rows[j].name == DefaultImageName ==> j == i;
    InitialSelectionNewest(t);
    var r := InitialSelection(List(t)).value;
    var b := GetDefaultGradient(t).value;
    var m :| 0 <= m < |t.rows| && t.rows[m] == r;
    var n :| 0 <= n < |t.rows| && t.rows[n] == b;
    assert m == i && n == i;
  }

  /** The effect that seeds the backend: an empty list seeds all presets, any other list ensures Default Image. */
  function AfterInitEffect(t: Table, now: int): Table {
    if |List(t)| == 0 then AfterInitializePresets(t, now) else AfterEnsureDefaultImage(t, now)
  }

  /**
   * Whatever the table held, after the seeding effect it is valid and
   * holds a "Default Image" row, and running the effect again would
   * change nothing.
   */
  lemma InitEffectSpec(t: Table, now: int, later: int)
    requires ValidTable(t)
    ensures var r := AfterInitEffect(t, now);
      && ValidTable(r)
      && HasDefaultImage(r)
      && AfterInitEffect(r, later) == r
  {
    if |t.rows| == 0 {
      InitializePresetsOnEmpty(t, now);
      var r := AfterInitializePresets(t, now);
      assert r.rows[0].name == DefaultImageName;
      EnsureDefaultImageSpec(r, later);
    } else {
      EnsureDefaultImageSpec(t, now);
      EnsureDefaultImageSpec(AfterEnsureDefaultImage(t, now), later);
    }
  }

  /** The fields `handleSave` sends to `update`: everything the editor holds, with `tags: []`. */
  function SavePatch(c: GradientConfig): Patch {
    Patch(Some(c.name), Some(c.angle), Some(ToStops(c.colorStops)), Some([]), Some(c.grainIntensity), None, None)
  }

  /** The arguments `handleSave` and `handleSaveAsNew` send to `create`, under a generated name and with `tags: []`. */
  function SaveArgs(c: GradientConfig, name: string): CreateArgs {
    CreateArgs(name, c.angle, ToStops(c.colorStops), [], c.grainIntensity, None, None)
  }

  /**
   * Saving over a selected record stores the configuration so that
   * selecting the record again loads it back with its tags cleared, and
   * the stored css is rendered from the configuration.
   */
  lemma SaveThenSelect(g: Gradient, c: GradientConfig, now: int)
    ensures var n := Merge(g, SavePatch(c), now);
      && ConfigOf(n) == c.(tags := [])
      && n.css == GenerateGradientCss(c.angle, ToStops(c.colorStops))
      && n.id == g.id && n.source == g.source
  {
    StopsRoundTrip(c.colorStops, []);
  }

  /** Saving as new stores a variant that loads back as the configuration under its new name, tags cleared. */
  lemma SaveAsNewThenSelect(t: Table, c: GradientConfig, name: string, user: Option<UserId>, now: int)
    requires ValidTable(t)
    ensures var (r, id) := AfterCreate(t, SaveArgs(c, name), user, now);
      exists k :: 0 <= k < |r.rows| && r.rows[k].id == id && r.rows[k].source == Variant
        && ConfigOf(r.rows[k]) == c.(name := name, tags := [])
  {
    CreateSpec(t, SaveArgs(c, name), user, now);
    StopsRoundTrip(c.colorStops, []);
    assert AfterCreate(t, SaveArgs(c, name), user, now).0.rows[|t.rows|].id == t.nextId;
  }

  // ---------------------------------------------------------------------------
  // The screen's state

  /** The state of the editing screen. */
  class GeneratorState {
    var config: GradientConfig
    var selectedId: Option<Id>
    var hasInitialized: bool
    var overlay: Option<Dimensions>
    var overlaySize: int
    var center: Option<Dimensions>
    var centerSize: int
    /** Whether the corrected default-selection effect has already fired (see `SelectDefaultOnce`). */
    var defaultSelected: bool

    /** The state on first render. */
    constructor ()
      ensures config == InitialConfig && selectedId == None && !hasInitialized && !defaultSelected
      ensures overlay == None && overlaySize == 200 && center == None && centerSize == 300
    {
      config := InitialConfig;
      selectedId := None;
      hasInitialized := false;
      defaultSelected := false;
      overlay := None;
      overlaySize := 200;
      center := None;
      centerSize := 300;
    }

    /**
     * The seeding effect: once the list has loaded (`loaded` is the list,
     * `None` while loading), and only the first time, seed the presets
     * into an empty table or ensure Default Image in a non-empty one.
     */
    method InitEffect(store: GradientStore, loaded: Option<seq<Gradient>>, now: int)
      requires store.Valid()
      modifies this`hasInitialized, store
      ensures store.Valid()
      ensures loaded.Some? && !old(hasInitialized) ==>
        && hasInitialized
        && store.State() == (if |loaded.value| == 0 then AfterInitializePresets(old(store.State()), now)
                             else AfterEnsureDefaultImage(old(store.State()), now))
      ensures !(loaded.Some? && !old(hasInitialized)) ==>
        hasInitialized == old(hasInitialized) && store.State() == old(store.State())
    {
      if loaded.Some? && !hasInitialized {
        hasInitialized := true;
        if |loaded.value| == 0 {
          store.InitializePresets(now);
        } else {
          store.EnsureDefaultImagePreset(now);
        }
      }
    }

    /** The default-selection effect: with a non-empty list and nothing selected, select the initial selection. */
    method SelectDefaultEffect(loaded: Option<seq<Gradient>>)
      modifies this`selectedId, this`config
      ensures loaded.Some? && |loaded.value| > 0 && old(selectedId).None? ==>
        var g := InitialSelection(loaded.value).value;
        selectedId == Some(g.id) && config == ConfigOf(g)
      ensures !(loaded.Some? && |loaded.value| > 0 && old(selectedId).None?) ==>
        selectedId == old(selectedId) && config == old(config)
    {
      if loaded.Some? && |loaded.value| > 0 && selectedId.None? {
        var g := InitialSelection(loaded.value);
        selectedId := Some(g.value.id);
        config := ConfigOf(g.value);
      }
    }

    /** `handleSelectGradient`: load the listed record with that id; an id not in the list changes nothing. */
    method SelectGradient(loaded: Option<seq<Gradient>>, id: Id)
      modifies this`selectedId, this`config
      ensures loaded.Some? && FindId(loaded.value, id).Some? ==>
        selectedId == Some(id) && config == ConfigOf(loaded.value[FindId(loaded.value, id).value])
      ensures !(loaded.Some? && FindId(loaded.value, id).Some?) ==>
        selectedId == old(selectedId) && config == old(config)
    {
      if loaded.Some? {
        var found := FindId(loaded.value, id);
        if found.Some? {
          selectedId := Some(id);
          config := ConfigOf(loaded.value[found.value]);
        }
      }
    }

    /**
     * `handleSave`: with a selection, update that record (a failed update
     * changes nothing and reports failure); without one, create a record
     * under the generated `name`, select it and take the name.
     */
    method Save(store: GradientStore, name: string, user: Option<UserId>, now: int) returns (saved: bool)
      requires store.Valid()
      modifies this`selectedId, this`config, store
      ensures store.Valid()
      ensures old(selectedId).Some? ==>
        && selectedId == old(selectedId) && config == old(config)
        && saved == AfterUpdate(old(store.State()), old(selectedId).value, SavePatch(old(config)), now).Ok?
        && store.State() == (if saved then AfterUpdate(old(store.State()), old(selectedId).value, SavePatch(old(config)), now).value
                             else old(store.State()))
      ensures old(selectedId).None? ==>
        && saved && selectedId.Some?
        && (store.State(), selectedId.value) == AfterCreate(old(store.State()), SaveArgs(old(config), name), user, now)
        && config == old(config).(name := name)
    {
      if selectedId.Some? {
        var outcome := store.Update(selectedId.value, SavePatch(config), now);
        saved := outcome.Ok?;
      } else {
        var id := store.Create(SaveArgs(config, name), user, now);
        selectedId := Some(id);
        config := config.(name := name);
        saved := true;
      }
    }

    /** `handleSaveAsNew`: always create under the generated `name`, select the new record and take the name. */
    method SaveAsNew(store: GradientStore, name: string, user: Option<UserId>, now: int)
      requires store.Valid()
      modifies this`selectedId, this`config, store
      ensures store.Valid()
      ensures selectedId.Some?
      ensures (store.State(), selectedId.value) == AfterCreate(old(store.State()), SaveArgs(old(config), name), user, now)
      ensures config == old(config).(name := name)
    {
      var id := store.Create(SaveArgs(config, name), user, now);
      selectedId := Some(id);
      config := config.(name := name);
    }

    /** `handleDelete`: nothing without a selection; otherwise remove the selected record and clear the selection. */
    method Delete(store: GradientStore)
      requires store.Valid()
      modifies this`selectedId, store
      ensures store.Valid()
      ensures old(selectedId).None? ==> selectedId == None && store.State() == old(store.State())
      ensures old(selectedId).Some? ==>
        selectedId == None && store.State() == AfterRemove(old(store.State()), old(selectedId).value)
    {
      if selectedId.Some? {
        store.Remove(selectedId.value);
        selectedId := None;
      }
    }

    /** `handleAddNewPresets`. */
    method AddNewPresets(store: GradientStore, now: int)
      requires store.Valid()
      modifies store
      ensures store.Valid() && HasDefaultImage(store.State())
      ensures store.State() == AfterEnsureDefaultImage(old(store.State()), now)
    {
      store.AddNewPresets(now);
    }

    /** `handleGenerateVariant`: replace the configuration by a random variant and clear the selection. */
    method GenerateVariantAction(colorCount: int, d: VariantDraws)
      requires ValidVariantDraws(colorCount, d)
      modifies this`config, this`selectedId
      ensures config == GenerateVariant(old(config), colorCount, d)
      ensures selectedId == None
    {
      config := GenerateVariant(config, colorCount, d);
      selectedId := None;
    }

    /**
     * `handleGenerateVariant` and the render it causes. Clearing a selection
     * changes a dependency of the default-selection effect, which then
     * re-runs against the current list: with a selection and a non-empty
     * list, the variant is replaced by the initial selection at once.
     */
    method GenerateVariantThenEffect(colorCount: int, d: VariantDraws, loaded: Option<seq<Gradient>>)
      requires ValidVariantDraws(colorCount, d)
      modifies this`config, this`selectedId
      ensures old(selectedId).Some? && loaded.Some? && |loaded.value| > 0 ==>
        var g := InitialSelection(loaded.value).value;
        selectedId == Some(g.id) && config == ConfigOf(g)
      ensures !(old(selectedId).Some? && loaded.Some? && |loaded.value| > 0) ==>
        selectedId == None && config == GenerateVariant(old(config), colorCount, d)
    {
      var before := selectedId;
      GenerateVariantAction(colorCount, d);
      if selectedId != before {
        SelectDefaultEffect(loaded);
      }
    }

    /**
     * `handleDelete` and the render it causes: the live list no longer holds
     * the removed record, the selection has changed, and the
     * default-selection effect selects the initial selection of what is left.
     */
    method DeleteThenEffect(store: GradientStore)
      requires store.Valid()
      modifies this`selectedId, this`config, store
      ensures store.Valid()
      ensures old(selectedId).None? ==>
        selectedId == None && config == old(config) && store.State() == old(store.State())
      ensures old(selectedId).Some? ==> store.State() == AfterRemove(old(store.State()), old(selectedId).value)
      ensures old(selectedId).Some? && |List(store.State())| > 0 ==>
        var g := InitialSelection(List(store.State())).value;
        selectedId == Some(g.id) && config == ConfigOf(g)
      ensures old(selectedId).Some? && |List(store.State())| == 0 ==>
        selectedId == None && config == old(config)
    {
      var before := selectedId;
      Delete(store);
      if selectedId != before {
        SelectDefaultEffect(Some(List(store.State())));
      }
    }

    /**
     * `handleAddNewPresets` and the render it causes. The list changes, so
     * the default-selection effect re-runs: with nothing selected (as after
     * deleting every record) it selects the newest Default Image row, which
     * the handler guarantees exists.
     */
    method AddNewPresetsThenEffect(store: GradientStore, now: int)
      requires store.Valid()
      modifies this`selectedId, this`config, store
      ensures store.Valid() && store.State() == AfterEnsureDefaultImage(old(store.State()), now)
      ensures old(selectedId).None? ==>
        var g := InitialSelection(List(store.State())).value;
        && selectedId == Some(g.id) && config == ConfigOf(g)
        && g in store.State().rows && g.name == DefaultImageName
      ensures old(selectedId).Some? ==> selectedId == old(selectedId) && config == old(config)
    {
      AddNewPresets(store, now);
      InitialSelectionNewest(store.State());
      SelectDefaultEffect(Some(List(store.State())));
    }

    /**
     * The default selection made once, on load, as the effect's comment
     * describes: the first time a non-empty list arrives, select the
     * initial selection if nothing is selected, and never again.
     */
    method SelectDefaultOnce(loaded: Option<seq<Gradient>>)
      modifies this`selectedId, this`config, this`defaultSelected
      ensures defaultSelected == (old(defaultSelected) || (loaded.Some? && |loaded.value| > 0))
      ensures loaded.Some? && |loaded.value| > 0 && !old(defaultSelected) && old(selectedId).None? ==>
        var g := InitialSelection(loaded.value).value;
        selectedId == Some(g.id) && config == ConfigOf(g)
      ensures !(loaded.Some? && |loaded.value| > 0 && !old(defaultSelected) && old(selectedId).None?) ==>
        selectedId == old(selectedId) && config == old(config)
    {
      if loaded.Some? && |loaded.value| > 0 && !defaultSelected {
        defaultSelected := true;
        if selectedId.None? {
          var g := InitialSelection(loaded.value);
          selectedId := Some(g.value.id);
          config := ConfigOf(g.value);
        }
      }
    }

    /**
     * `handleGenerateVariant` and the render it causes, with the corrected
     * effect: once the default selection has been made, the variant stays
     * on screen, unselected, whatever the list holds.
     */
    method GenerateVariantKept(colorCount: int, d: VariantDraws, loaded: Option<seq<Gradient>>)
      requires ValidVariantDraws(colorCount, d)
      modifies this`config, this`selectedId, this`defaultSelected
      ensures old(defaultSelected) || !(old(selectedId).Some? && loaded.Some? && |loaded.value| > 0) ==>
        && selectedId == None && config == GenerateVariant(old(config), colorCount, d)
        && defaultSelected == old(defaultSelected)
      ensures !old(defaultSelected) && old(selectedId).Some? && loaded.Some? && |loaded.value| > 0 ==>
        var g := InitialSelection(loaded.value).value;
        selectedId == Some(g.id) && config == ConfigOf(g) && defaultSelected
    {
      ghost var variant := GenerateVariant(config, colorCount, d);
      ghost var wasDefaultSelected := defaultSelected;
      var before := selectedId;
      GenerateVariantAction(colorCount, d);
      assert config == variant && defaultSelected == wasDefaultSelected;
      if before.Some? {
        SelectDefaultOnce(loaded);
        if !(loaded.Some? && |loaded.value| > 0 && !wasDefaultSelected) {
          assert selectedId == None && config == variant;
        }
      }
    }

    /**
     * `handleImageUpload`: a rejected file or an image that fails to
     * decode leaves the overlay as it was; otherwise the overlay becomes
     * the decoded image.
     */
    method ImageUpload(size: nat, mimeType: string, decoded: Option<Dimensions>) returns (rejected: Option<UploadError>)
      modifies this`overlay
      ensures rejected == CheckUpload(size, mimeType)
      ensures rejected.None? && decoded.Some? ==> overlay == decoded
      ensures rejected.Some? || decoded.None? ==> overlay == old(overlay)
    {
      rejected := CheckUpload(size, mimeType);
      if rejected.None? && decoded.Some? {
        overlay := decoded;
      }
    }

    /** `handleRemoveImage`. */
    method RemoveImage()
      modifies this`overlay
      ensures overlay == None
    {
      overlay := None;
    }

    /** `handleCenterImageUpload`: as the overlay upload, for the centre image. */
    method CenterImageUpload(size: nat, mimeType: string, decoded: Option<Dimensions>) returns (rejected: Option<UploadError>)
      modifies this`center
      ensures rejected == CheckUpload(size, mimeType)
      ensures rejected.None? && decoded.Some? ==> center == decoded
      ensures rejected.Some? || decoded.None? ==> center == old(center)
    {
      rejected := CheckUpload(size, mimeType);
      if rejected.None? && decoded.Some? {
        center := decoded;
      }
    }

    /** `handleRemoveCenterImage`. */
    method RemoveCenterImage()
      modifies this`center
      ensures center == None
    {
      center := None;
    }
  }
}
