/**
 * The backend's one table of gradient records (convex/gradients.ts): the
 * built-in preset catalogue, the two seeding mutations, create, partial
 * update, remove, and the list / get / default queries.
 *
 * Every operation is first given as a function from the old table to the
 * new one (`After...`), and the lemmas about those functions carry what the
 * handlers promise; the class `GradientStore` then performs the handlers
 * step by step on its own fields and is proved to follow the functions.
 * Document ids are handed out from a counter, and the rows are kept in
 * insertion order, which is the runtime's default (ascending) order.
 */
module Gradients {
  import opened Wrappers
  import opened Text
  import opened GradientCss

  type Id = nat

  /** The authenticated user attached to a record, if any. */
  type UserId = nat

  datatype Source = Preset | Variant

  datatype Mode = Pastel | Vibrant

  /** Declared by the schema and copied by create / update; no rendering reads it. */
  datatype RadialSource = RadialSource(x: real, y: real, radius: real, color: string)
  datatype VibrantBlur = VibrantBlur(vibrancy: real, blurStrength: real, colorDensity: real, radialSources: seq<RadialSource>)

  /** One row of the `gradients` table. */
  datatype Gradient = Gradient(
    id: Id,
    name: string,
    css: string,
    angle: int,
    stops: seq<Stop>,
    tags: seq<string>,
    source: Source,
    grainIntensity: real,
    mode: Option<Mode>,
    vibrantBlur: Option<VibrantBlur>,
    createdAt: int,
    updatedAt: int,
    userId: Option<UserId>)

  /** A built-in preset definition. */
  datatype PresetDef = PresetDef(name: string, angle: int, stops: seq<Stop>, tags: seq<string>, grainIntensity: real, mode: Mode)

  const DefaultImageName: string := "Default Image"

  const DefaultImagePreset: PresetDef :=
    PresetDef(DefaultImageName, 135,
      [Stop(0, "#fdcbba"), Stop(40, "#fbe0c1"), Stop(100, "#fdf2e2")],
      ["warm", "soft", "default"], 0.15, Pastel)

  const PresetGradients: seq<PresetDef> := [
    DefaultImagePreset,
    PresetDef("Rose Garden", 315,
      [Stop(0, "#fce4ec"), Stop(35, "#f8bbd9"), Stop(70, "#f48fb1"), Stop(100, "#ec407a")],
      ["pink", "floral", "soft"], 0.12, Pastel),
    PresetDef("Forest Mist", 90, [Stop(0, "#134e5e"), Stop(100, "#71b280")], ["cool", "nature"], 0.25, Pastel),
    PresetDef("Golden Hour", 45, [Stop(0, "#f6d365"), Stop(100, "#fda085")], ["warm", "sunset"], 0.15, Pastel),
    PresetDef("Arctic Aurora", 135,
      [Stop(0, "#43cea2"), Stop(50, "#185a9d"), Stop(100, "#43cea2")],
      ["cool", "northern lights"], 0.2, Vibrant),
    PresetDef("Dusk Purple", 180, [Stop(0, "#667eea"), Stop(100, "#764ba2")], ["cool", "evening"], 0.15, Vibrant),
    PresetDef("Peach Blossom", 120, [Stop(0, "#ffecd2"), Stop(100, "#fcb69f")], ["warm", "pastel"], 0.12, Pastel),
    PresetDef("Mint Lavender", 60, [Stop(0, "#a8edea"), Stop(100, "#fed6e3")], ["pastel", "fresh"], 0.1, Pastel),
    PresetDef("Ocean Breeze", 180,
      [Stop(0, "#667eea"), Stop(50, "#764ba2"), Stop(100, "#f093fb")],
      ["cool", "vibrant"], 0.15, Vibrant),
    PresetDef("Sunset Coral", 135,
      [Stop(0, "#ff6b6b"), Stop(50, "#feca57"), Stop(100, "#ee5a6f")],
      ["warm", "vibrant"], 0.2, Vibrant)
  ]

  // ---------------------------------------------------------------------------
  // The preset catalogue

  /** 2 to 4 stops, `#rrggbb` colours, ascending positions from 0 to 100. */
  predicate WellFormedPreset(p: PresetDef) {
    && 2 <= |p.stops| <= 4
    && HexColoured(p.stops)
    && p.stops[0].position == 0
    && p.stops[|p.stops| - 1].position == 100
    && forall i :: 0 < i < |p.stops| ==> p.stops[i - 1].position <= p.stops[i].position
  }

  /** The preset at position `i` of the catalogue is well formed. */
  lemma PresetWellFormed(i: nat)
    requires i < |PresetGradients|
    ensures WellFormedPreset(PresetGradients[i])
  {
    var p := PresetGradients[i];
    assert HexColoured(p.stops) by {
      forall j | 0 <= j < |p.stops| ensures IsHexColor(p.stops[j].color) {
        HexColourOf(p.stops[j].color);
      }
    }
  }

  /** Every colour used by the catalogue is a `#rrggbb` colour. */
  lemma HexColourOf(c: string)
    requires c in PresetColours
    ensures IsHexColor(c)
  {
  }

  const PresetColours: set<string> := {
    "#fdcbba", "#fbe0c1", "#fdf2e2", "#fce4ec", "#f8bbd9", "#f48fb1", "#ec407a",
    "#134e5e", "#71b280", "#f6d365", "#fda085", "#43cea2", "#185a9d", "#667eea",
    "#764ba2", "#ffecd2", "#fcb69f", "#a8edea", "#fed6e3", "#f093fb", "#ff6b6b",
    "#feca57", "#ee5a6f"
  }

  /**
   * Ten presets, each well formed; the first is "Default Image" and no
   * other preset carries that name.
   */
  lemma PresetCatalogue()
    ensures |PresetGradients| == 10
    ensures forall i :: 0 <= i < |PresetGradients| ==> WellFormedPreset(PresetGradients[i])
    ensures PresetGradients[0] == DefaultImagePreset && DefaultImagePreset.name == DefaultImageName
    ensures forall i :: 0 < i < |PresetGradients| ==> PresetGradients[i].name != DefaultImageName
  {
    forall i | 0 <= i < |PresetGradients| ensures WellFormedPreset(PresetGradients[i]) {
      PresetWellFormed(i);
    }
  }

  /** The decimal renderings the Default Image preset needs. */
  lemma DefaultImageNumbers()
    ensures IntToString(0) == "0" && IntToString(40) == "40"
    ensures IntToString(100) == "100" && IntToString(135) == "135"
  {
    assert NatToDigits(1, 10) == "1";
    assert NatToDigits(4, 10) == "4";
    assert NatToDigits(10, 10) == "10";
    assert NatToDigits(13, 10) == "13";
  }

  /**
   * The Default Image preset renders to its documented CSS string,
   * `linear-gradient(135deg, #fdcbba 0%, #fbe0c1 40%, #fdf2e2 100%)`,
   * written here piece by piece.
   */
  lemma DefaultImageCss()
    ensures GenerateGradientCss(DefaultImagePreset.angle, DefaultImagePreset.stops)
         == "linear-gradient(" + "135" + "deg, "
            + "#fdcbba 0%" + ", " + "#fbe0c1 40%" + ", " + "#fdf2e2 100%" + ")"
  {
    DefaultImageNumbers();
    var stops := DefaultImagePreset.stops;
    assert StopCss(stops[0]) == "#fdcbba 0%";
    assert StopCss(stops[1]) == "#fbe0c1 40%";
    assert StopCss(stops[2]) == "#fdf2e2 100%";
    StopsCssCons(stops);
    StopsCssCons(stops[1..]);
    assert stops[1..][1..] == [stops[2]];
    StopsCssSingle(stops[2]);
  }

  // ---------------------------------------------------------------------------
  // The table as a value

  datatype Table = Table(rows: seq<Gradient>, nextId: Id)

  /** The stored css string is the rendering of the record's own angle and stops. */
  predicate CssConsistent(g: Gradient) {
    g.css == GenerateGradientCss(g.angle, g.stops)
  }

  /**
   * The table's invariant: every id was handed out by the counter, ids grow
   * in insertion order (so they are distinct), and every css is consistent.
   */
  predicate ValidTable(t: Table) {
    && (forall i :: 0 <= i < |t.rows| ==> t.rows[i].id < t.nextId && CssConsistent(t.rows[i]))
    && IdsIncreasing(t.rows)
  }

  /** Ids strictly increasing along the rows. */
  predicate IdsIncreasing(rows: seq<Gradient>) {
    forall i, j :: 0 <= i < j < |rows| ==> rows[i].id < rows[j].id
  }

  /** The position of the row with id `id`, if there is one. */
  function FindId(rows: seq<Gradient>, id: Id): (r: Option<nat>)
    ensures r.Some? ==> r.value < |rows| && rows[r.value].id == id
    ensures r.None? <==> forall i :: 0 <= i < |rows| ==> rows[i].id != id
  {
    if rows == [] then None
    else if rows[0].id == id then Some(0)
    else match FindId(rows[1..], id)
      case None => None
      case Some(k) => Some(k + 1)
  }

  /** The position of the first row named `name` (the query `.filter(name == ...).first()`). */
  function FirstNamed(rows: seq<Gradient>, name: string): (r: Option<nat>)
    ensures r.Some? ==> r.value < |rows| && rows[r.value].name == name
    ensures r.Some? ==> forall j :: 0 <= j < r.value ==> rows[j].name != name
    ensures r.None? <==> forall i :: 0 <= i < |rows| ==> rows[i].name != name
  {
    if rows == [] then None
    else if rows[0].name == name then Some(0)
    else match FirstNamed(rows[1..], name)
      case None => None
      case Some(k) => Some(k + 1)
  }

  /** Some row is named "Default Image". */
  predicate HasDefaultImage(t: Table) {
    exists i :: 0 <= i < |t.rows| && t.rows[i].name == DefaultImageName
  }

  /** `ctx.db.insert`: append the document under the next id. */
  function WithInserted(t: Table, g: Gradient): Table {
    Table(t.rows + [g.(id := t.nextId)], t.nextId + 1)
  }

  /** The row a seeding mutation inserts for a preset. */
  function PresetRecord(p: PresetDef, now: int): Gradient {
    Gradient(0, p.name, GenerateGradientCss(p.angle, p.stops), p.angle, p.stops, p.tags,
      Preset, p.grainIntensity, Some(p.mode), None, now, now, None)
  }

  /** Insert the given presets, in order. */
  function WithPresets(t: Table, ps: seq<PresetDef>, now: int): Table
    decreases |ps|
  {
    if ps == [] then t
    else WithInserted(WithPresets(t, ps[..|ps| - 1], now), PresetRecord(ps[|ps| - 1], now))
  }

  /** `initializePresets`: seed every preset, but only into an empty table. */
  function AfterInitializePresets(t: Table, now: int): Table {
    if |t.rows| == 0 then WithPresets(t, PresetGradients, now) else t
  }

  /** `ensureDefaultImagePreset` (and `addNewPresets`): insert Default Image unless a row has that name. */
  function AfterEnsureDefaultImage(t: Table, now: int): Table {
    if FirstNamed(t.rows, DefaultImageName).Some? then t
    else WithInserted(t, PresetRecord(DefaultImagePreset, now))
  }

  /** The arguments of `create`. */
  datatype CreateArgs = CreateArgs(
    name: string,
    angle: int,
    stops: seq<Stop>,
    tags: seq<string>,
    grainIntensity: real,
    mode: Option<Mode>,
    vibrantBlur: Option<VibrantBlur>)

  /** The row `create` inserts. */
  function VariantRecord(args: CreateArgs, user: Option<UserId>, now: int): Gradient {
    Gradient(0, args.name, GenerateGradientCss(args.angle, args.stops), args.angle, args.stops,
      args.tags, Variant, args.grainIntensity, args.mode, args.vibrantBlur, now, now, user)
  }

  /** `create`: the new table and the new record's id. */
  function AfterCreate(t: Table, args: CreateArgs, user: Option<UserId>, now: int): (Table, Id) {
    (WithInserted(t, VariantRecord(args, user, now)), t.nextId)
  }

  /** The optional fields of `update`; an absent field is `None`. */
  datatype Patch = Patch(
    name: Option<string>,
    angle: Option<int>,
    stops: Option<seq<Stop>>,
    tags: Option<seq<string>>,
    grainIntensity: Option<real>,
    mode: Option<Mode>,
    vibrantBlur: Option<VibrantBlur>)

  function Or<T>(o: Option<T>, old_: T): T {
    if o.Some? then o.value else old_
  }

  /** `{ ...gradient, ...updates }`, with css recomputed from the merge and updatedAt set. */
  function Merge(g: Gradient, p: Patch, now: int): Gradient {
    var angle := Or(p.angle, g.angle);
    var stops := Or(p.stops, g.stops);
    g.(name := Or(p.name, g.name),
       angle := angle,
       stops := stops,
       tags := Or(p.tags, g.tags),
       grainIntensity := Or(p.grainIntensity, g.grainIntensity),
       mode := if p.mode.Some? then p.mode else g.mode,
       vibrantBlur := if p.vibrantBlur.Some? then p.vibrantBlur else g.vibrantBlur,
       css := GenerateGradientCss(angle, stops),
       updatedAt := now)
  }

  const NotFound: string := "Gradient not found"

  /** `update`: fails with "Gradient not found" on a missing id, otherwise patches that one row. */
  function AfterUpdate(t: Table, id: Id, p: Patch, now: int): Result<Table, string> {
    match FindId(t.rows, id)
    case None => Err(NotFound)
    case Some(k) => Ok(t.(rows := t.rows[k := Merge(t.rows[k], p, now)]))
  }

  /** The rows without the one whose id is `id`. */
  function WithoutId(rows: seq<Gradient>, id: Id): seq<Gradient> {
    if rows == [] then []
    else if rows[0].id == id then WithoutId(rows[1..], id)
    else [rows[0]] + WithoutId(rows[1..], id)
  }

  /** `remove`: delete the row with that id. */
  function AfterRemove(t: Table, id: Id): Table {
    t.(rows := WithoutId(t.rows, id))
  }

  // ---------------------------------------------------------------------------
  // Queries

  /** The rows, last first. */
  function Reversed(rows: seq<Gradient>): (r: seq<Gradient>)
    ensures |r| == |rows|
    ensures forall i :: 0 <= i < |r| ==> r[i] == rows[|rows| - 1 - i]
  {
    if rows == [] then [] else [rows[|rows| - 1]] + Reversed(rows[..|rows| - 1])
  }

  /** `list`: all rows in descending order, newest first. */
  function List(t: Table): seq<Gradient> {
    Reversed(t.rows)
  }

  /** `getGradient`: the row with that id, or null. */
  function GetGradient(t: Table, id: Id): (r: Option<Gradient>)
    ensures r.Some? <==> exists i :: 0 <= i < |t.rows| && t.rows[i].id == id
    ensures r.Some? ==> r.value.id == id && r.value in t.rows
  {
    match FindId(t.rows, id)
    case None => None
    case Some(k) => Some(t.rows[k])
  }

  /**
   * `getDefaultGradient`: the earliest row named "Default Image"; failing
   * that the earliest row; null only for an empty table.
   */
  function GetDefaultGradient(t: Table): (r: Option<Gradient>)
    ensures r.None? <==> |t.rows| == 0
    ensures HasDefaultImage(t) ==> r.Some? && r.value.name == DefaultImageName
    ensures HasDefaultImage(t) ==>
      exists k :: 0 <= k < |t.rows| && r.value == t.rows[k] && forall j :: 0 <= j < k ==> t.rows[j].name != DefaultImageName
    ensures !HasDefaultImage(t) && |t.rows| > 0 ==> r == Some(t.rows[0])
  {
    match FirstNamed(t.rows, DefaultImageName)
    case Some(k) => Some(t.rows[k])
    case None => if |t.rows| == 0 then None else Some(t.rows[0])
  }

  // ---------------------------------------------------------------------------
  // Properties of the operations

  /** In a valid table the list is strictly newest first and holds every row exactly once. */
  lemma ListNewestFirst(t: Table)
    requires ValidTable(t)
    ensures |List(t)| == |t.rows|
    ensures forall i, j :: 0 <= i < j < |List(t)| ==> List(t)[i].id > List(t)[j].id
    ensures multiset(List(t)) == multiset(t.rows)
  {
    ReversedDecreasing(t.rows);
    ReversedMultiset(t.rows);
  }

  /** Reversing rows with increasing ids gives decreasing ids. */
  lemma ReversedDecreasing(rows: seq<Gradient>)
    requires IdsIncreasing(rows)
    ensures forall i, j :: 0 <= i < j < |rows| ==> Reversed(rows)[i].id > Reversed(rows)[j].id
  {
    var r := Reversed(rows);
    var n := |rows|;
    forall i, j | 0 <= i < j < n ensures r[i].id > r[j].id {
      assert r[i] == rows[n - 1 - i] && r[j] == rows[n - 1 - j];
    }
  }

  /** Reversing keeps the multiset of rows. */
  lemma {:induction false} ReversedMultiset(rows: seq<Gradient>)
    ensures multiset(Reversed(rows)) == multiset(rows)
  {
    if rows != [] {
      var front := rows[..|rows| - 1];
      ReversedMultiset(front);
      assert rows == front + [rows[|rows| - 1]];
    }
  }

  /** Inserting keeps every old row, appends one row under a fresh id, and keeps the table valid. */
  lemma InsertSpec(t: Table, g: Gradient)
    requires ValidTable(t) && CssConsistent(g)
    ensures var r := WithInserted(t, g);
      && ValidTable(r)
      && r.rows[..|t.rows|] == t.rows
      && |r.rows| == |t.rows| + 1
      && r.rows[|t.rows|] == g.(id := t.nextId)
      && forall i :: 0 <= i < |t.rows| ==> t.rows[i].id != t.nextId
  {
    var r := WithInserted(t, g);
    assert r.rows[..|t.rows|] == t.rows;
  }

  /** Inserting a list of presets appends one row per preset, in order, under consecutive ids. */
  lemma {:induction false} WithPresetsSpec(t: Table, ps: seq<PresetDef>, now: int)
    requires ValidTable(t)
    ensures var r := WithPresets(t, ps, now);
      && ValidTable(r)
      && |r.rows| == |t.rows| + |ps|
      && r.nextId == t.nextId + |ps|
      && r.rows[..|t.rows|] == t.rows
      && forall i :: 0 <= i < |ps| ==> r.rows[|t.rows| + i] == PresetRecord(ps[i], now).(id := t.nextId + i)
    decreases |ps|
  {
    if ps != [] {
      var front := ps[..|ps| - 1];
      WithPresetsSpec(t, front, now);
      var mid := WithPresets(t, front, now);
      InsertSpec(mid, PresetRecord(ps[|ps| - 1], now));
      var r := WithPresets(t, ps, now);
      assert r.rows[..|t.rows|] == mid.rows[..|t.rows|];
      forall i | 0 <= i < |ps|
        ensures r.rows[|t.rows| + i] == PresetRecord(ps[i], now).(id := t.nextId + i)
      {
        if i < |ps| - 1 {
          assert front[i] == ps[i];
          assert r.rows[|t.rows| + i] == mid.rows[|t.rows| + i];
        }
      }
    }
  }

  /**
   * On an empty table `initializePresets` inserts the ten presets in order,
   * each as a preset whose css is rendered from its own angle and stops.
   */
  lemma InitializePresetsOnEmpty(t: Table, now: int)
    requires ValidTable(t) && |t.rows| == 0
    ensures var r := AfterInitializePresets(t, now);
      && ValidTable(r)
      && |r.rows| == |PresetGradients|
      && forall i :: 0 <= i < |r.rows| ==>
           && r.rows[i].name == PresetGradients[i].name
           && r.rows[i].angle == PresetGradients[i].angle
           && r.rows[i].stops == PresetGradients[i].stops
           && r.rows[i].source == Preset
           && r.rows[i].createdAt == r.rows[i].updatedAt == now
           && CssConsistent(r.rows[i])
  {
    PresetsOnEmpty(t, PresetGradients, now);
  }

  /** Seeding an empty table with any list of presets gives one consistent preset row per entry, in order. */
  lemma PresetsOnEmpty(t: Table, ps: seq<PresetDef>, now: int)
    requires ValidTable(t) && |t.rows| == 0
    ensures var r := WithPresets(t, ps, now);
      && ValidTable(r)
      && |r.rows| == |ps|
      && forall i :: 0 <= i < |r.rows| ==>
           && r.rows[i].name == ps[i].name
           && r.rows[i].angle == ps[i].angle
           && r.rows[i].stops == ps[i].stops
           && r.rows[i].source == Preset
           && r.rows[i].createdAt == r.rows[i].updatedAt == now
           && CssConsistent(r.rows[i])
  {
    WithPresetsSpec(t, ps, now);
    var r := WithPresets(t, ps, now);
    forall i | 0 <= i < |r.rows|
      ensures r.rows[i] == PresetRecord(ps[i], now).(id := t.nextId + i)
    {
      assert r.rows[|t.rows| + i] == r.rows[i];
    }
  }

  /** `initializePresets` keeps the table valid. */
  lemma InitializePresetsValid(t: Table, now: int)
    requires ValidTable(t)
    ensures ValidTable(AfterInitializePresets(t, now))
  {
    if |t.rows| == 0 {
      WithPresetsSpec(t, PresetGradients, now);
    }
  }

  /** On a non-empty table `initializePresets` changes nothing. */
  lemma InitializePresetsNonEmpty(t: Table, now: int)
    requires |t.rows| > 0
    ensures AfterInitializePresets(t, now) == t
  {
  }

  /** Seeding is idempotent: a second `initializePresets`, at any time, is a no-op. */
  lemma InitializePresetsIdempotent(t: Table, now1: int, now2: int)
    requires ValidTable(t)
    ensures var once := AfterInitializePresets(t, now1);
      AfterInitializePresets(once, now2) == once
  {
    if |t.rows| == 0 {
      WithPresetsSpec(t, PresetGradients, now1);
    }
  }

  /**
   * After `ensureDefaultImagePreset` a row named "Default Image" exists;
   * if one existed before, the table is unchanged, otherwise exactly one
   * preset row is appended.
   */
  lemma EnsureDefaultImageSpec(t: Table, now: int)
    requires ValidTable(t)
    ensures var r := AfterEnsureDefaultImage(t, now);
      && ValidTable(r)
      && HasDefaultImage(r)
      && (HasDefaultImage(t) ==> r == t)
      && (!HasDefaultImage(t) ==>
            r.rows == t.rows + [PresetRecord(DefaultImagePreset, now).(id := t.nextId)])
  {
    var r := AfterEnsureDefaultImage(t, now);
    if FirstNamed(t.rows, DefaultImageName).None? {
      InsertSpec(t, PresetRecord(DefaultImagePreset, now));
      assert r.rows[|t.rows|].name == DefaultImageName;
    }
  }

  /** `ensureDefaultImagePreset` is idempotent. */
  lemma EnsureDefaultImageIdempotent(t: Table, now1: int, now2: int)
    requires ValidTable(t)
    ensures var once := AfterEnsureDefaultImage(t, now1);
      AfterEnsureDefaultImage(once, now2) == once
  {
    EnsureDefaultImageSpec(t, now1);
    EnsureDefaultImageSpec(AfterEnsureDefaultImage(t, now1), now2);
  }

  /**
   * `create` appends one variant row whose css is rendered from the
   * arguments, with createdAt == updatedAt, under an id no other row has,
   * and leaves every other row as it was.
   */
  lemma CreateSpec(t: Table, args: CreateArgs, user: Option<UserId>, now: int)
    requires ValidTable(t)
    ensures var (r, id) := AfterCreate(t, args, user, now);
      && ValidTable(r)
      && r.rows[..|t.rows|] == t.rows
      && |r.rows| == |t.rows| + 1
      && (forall i :: 0 <= i < |t.rows| ==> t.rows[i].id != id)
      && var g := r.rows[|t.rows|];
         && g.id == id && g.source == Variant
         && g.name == args.name && g.angle == args.angle && g.stops == args.stops
         && g.tags == args.tags && g.grainIntensity == args.grainIntensity
         && g.mode == args.mode && g.vibrantBlur == args.vibrantBlur && g.userId == user
         && g.createdAt == g.updatedAt == now
         && CssConsistent(g)
  {
    InsertSpec(t, VariantRecord(args, user, now));
  }

  /** `update` on an id that no row has fails with "Gradient not found". */
  lemma UpdateMissing(t: Table, id: Id, p: Patch, now: int)
    requires forall i :: 0 <= i < |t.rows| ==> t.rows[i].id != id
    ensures AfterUpdate(t, id, p, now) == Err(NotFound)
  {
  }

  /** `update` succeeds exactly when some row has the id. */
  lemma UpdateSucceedsIffFound(t: Table, id: Id, p: Patch, now: int)
    ensures AfterUpdate(t, id, p, now).Ok? <==> exists i :: 0 <= i < |t.rows| && t.rows[i].id == id
  {
    if exists i :: 0 <= i < |t.rows| && t.rows[i].id == id {
      var i :| 0 <= i < |t.rows| && t.rows[i].id == id;
      assert FindId(t.rows, id).Some?;
    }
  }

  /** In a valid table distinct rows carry distinct ids. */
  lemma IdsDistinct(t: Table, i: nat, k: nat)
    requires ValidTable(t)
    requires i < |t.rows| && k < |t.rows| && i != k
    ensures t.rows[i].id != t.rows[k].id
  {
    if i < k { assert t.rows[i].id < t.rows[k].id; } else { assert t.rows[k].id < t.rows[i].id; }
  }

  /**
   * The merged row: fields absent from the patch keep their values,
   * present ones are replaced, id, source, createdAt and owner never
   * change, updatedAt is the time of the update and css is re-rendered
   * from the merged angle and stops.
   */
  lemma MergeSpec(g: Gradient, p: Patch, now: int)
    ensures var n := Merge(g, p, now);
      && n.id == g.id && n.source == g.source && n.createdAt == g.createdAt && n.userId == g.userId
      && n.name == (if p.name.Some? then p.name.value else g.name)
      && n.angle == (if p.angle.Some? then p.angle.value else g.angle)
      && n.stops == (if p.stops.Some? then p.stops.value else g.stops)
      && n.tags == (if p.tags.Some? then p.tags.value else g.tags)
      && n.grainIntensity == (if p.grainIntensity.Some? then p.grainIntensity.value else g.grainIntensity)
      && n.mode == (if p.mode.Some? then p.mode else g.mode)
      && n.vibrantBlur == (if p.vibrantBlur.Some? then p.vibrantBlur else g.vibrantBlur)
      && n.updatedAt == now
      && CssConsistent(n)
  {
  }

  /**
   * A successful `update` rewrites only the row with that id, as `Merge`
   * describes, and keeps the table valid.
   */
  lemma UpdateSpec(t: Table, id: Id, p: Patch, now: int)
    requires ValidTable(t)
    requires AfterUpdate(t, id, p, now).Ok?
    ensures var r := AfterUpdate(t, id, p, now).value;
      && ValidTable(r)
      && |r.rows| == |t.rows|
      && r.nextId == t.nextId
      && forall i :: 0 <= i < |t.rows| ==>
           && (t.rows[i].id != id ==> r.rows[i] == t.rows[i])
           && (t.rows[i].id == id ==> r.rows[i] == Merge(t.rows[i], p, now))
  {
    UpdateRows(t, id, p, now);
    UpdateValid(t, id, p, now);
  }

  /** Update rewrites the one row with the id and no other. */
  lemma UpdateRows(t: Table, id: Id, p: Patch, now: int)
    requires ValidTable(t)
    requires AfterUpdate(t, id, p, now).Ok?
    ensures var r := AfterUpdate(t, id, p, now).value;
      && |r.rows| == |t.rows|
      && r.nextId == t.nextId
      && forall i :: 0 <= i < |t.rows| ==>
           && (t.rows[i].id != id ==> r.rows[i] == t.rows[i])
           && (t.rows[i].id == id ==> r.rows[i] == Merge(t.rows[i], p, now))
  {
    var k := FindId(t.rows, id).value;
    forall i | 0 <= i < |t.rows| && i != k ensures t.rows[i].id != id {
      IdsDistinct(t, i, k);
    }
  }

  /** Update keeps the table valid: ids stay where they were and the rewritten css is consistent. */
  lemma UpdateValid(t: Table, id: Id, p: Patch, now: int)
    requires ValidTable(t)
    requires AfterUpdate(t, id, p, now).Ok?
    ensures ValidTable(AfterUpdate(t, id, p, now).value)
  {
    var k := FindId(t.rows, id).value;
    var r := AfterUpdate(t, id, p, now).value;
    assert r.rows == t.rows[k := Merge(t.rows[k], p, now)];
    MergeSpec(t.rows[k], p, now);
    assert forall i :: 0 <= i < |t.rows| ==> r.rows[i].id == t.rows[i].id;
  }


  /** A name-only update keeps angle and stops and leaves css exactly as it was. */
  lemma NameOnlyUpdate(t: Table, id: Id, name: string, now: int)
    requires ValidTable(t)
    requires AfterUpdate(t, id, Patch(Some(name), None, None, None, None, None, None), now).Ok?
    ensures var r := AfterUpdate(t, id, Patch(Some(name), None, None, None, None, None, None), now).value;
      forall i :: 0 <= i < |t.rows| ==>
        && r.rows[i].angle == t.rows[i].angle
        && r.rows[i].stops == t.rows[i].stops
        && r.rows[i].css == t.rows[i].css
        && (t.rows[i].id == id ==> r.rows[i].name == name)
  {
    var p := Patch(Some(name), None, None, None, None, None, None);
    UpdateSpec(t, id, p, now);
    forall i | 0 <= i < |t.rows| && t.rows[i].id == id {
      MergeSpec(t.rows[i], p, now);
    }
  }

  /** Removal keeps exactly the rows with another id. */
  lemma {:induction false} WithoutIdSpec(rows: seq<Gradient>, id: Id)
    ensures forall g :: g in WithoutId(rows, id) <==> g in rows && g.id != id
    ensures |WithoutId(rows, id)| <= |rows|
    ensures (forall i :: 0 <= i < |rows| ==> rows[i].id != id) ==> WithoutId(rows, id) == rows
  {
    if rows != [] {
      WithoutIdSpec(rows[1..], id);
      assert rows == [rows[0]] + rows[1..];
    }
  }

  /** Removing rows keeps the ids in increasing order. */
  lemma {:induction false} WithoutIdIncreasing(rows: seq<Gradient>, id: Id)
    requires IdsIncreasing(rows)
    ensures IdsIncreasing(WithoutId(rows, id))
  {
    if rows != [] {
      var rest := WithoutId(rows[1..], id);
      WithoutIdIncreasing(rows[1..], id);
      if rows[0].id != id {
        assert IdsAbove(rows[1..], rows[0].id);
        WithoutIdAbove(rows[1..], id, rows[0].id);
        assert WithoutId(rows, id) == [rows[0]] + rest;
      }
    }
  }

  /** Every id above `b`. */
  predicate IdsAbove(rows: seq<Gradient>, b: Id) {
    forall i :: 0 <= i < |rows| ==> rows[i].id > b
  }

  /** Dropping rows keeps every remaining id above a bound that held before. */
  lemma {:induction false} WithoutIdAbove(rows: seq<Gradient>, id: Id, b: Id)
    requires IdsAbove(rows, b)
    ensures IdsAbove(WithoutId(rows, id), b)
  {
    if rows != [] {
      WithoutIdAbove(rows[1..], id, b);
    }
  }


  /**
   * `remove` deletes exactly the row with that id: nothing with that id is
   * left, every other row is kept, and the table stays valid; on a missing
   * id it changes nothing.
   */
  lemma RemoveSpec(t: Table, id: Id)
    requires ValidTable(t)
    ensures var r := AfterRemove(t, id);
      && ValidTable(r)
      && r.nextId == t.nextId
      && (forall i :: 0 <= i < |r.rows| ==> r.rows[i].id != id)
      && (forall g :: g in r.rows <==> g in t.rows && g.id != id)
      && ((forall i :: 0 <= i < |t.rows| ==> t.rows[i].id != id) ==> r.rows == t.rows)
  {
    var r := AfterRemove(t, id);
    WithoutIdSpec(t.rows, id);
    WithoutIdIncreasing(t.rows, id);
    forall i | 0 <= i < |r.rows| ensures r.rows[i].id != id && r.rows[i].id < t.nextId && CssConsistent(r.rows[i]) {
      assert r.rows[i] in t.rows;
    }
  }

  // ---------------------------------------------------------------------------
  // The handlers, performed on a mutable table

  /** The `gradients` table as the mutation handlers change it: its rows in insertion order and the id counter. */
  class GradientStore {
    var rows: seq<Gradient>
    var nextId: Id

    /** The table as a value, for the functions above. */
    function State(): Table
      reads this
    {
      Table(rows, nextId)
    }

    ghost predicate Valid()
      reads this
    {
      ValidTable(State())
    }

    /** An empty table. */
    constructor ()
      ensures State() == Table([], 0) && Valid()
    {
      rows := [];
      nextId := 0;
    }

    /** `ctx.db.insert`: store `g` under a fresh id and return that id. */
    method Insert(g: Gradient) returns (id: Id)
      modifies this
      ensures State() == WithInserted(old(State()), g)
      ensures id == old(nextId)
    {
      id := nextId;
      rows := rows + [g.(id := id)];
      nextId := nextId + 1;
    }

    /** Insert each of `ps` in turn. */
    method InsertPresets(ps: seq<PresetDef>, now: int)
      modifies this
      ensures State() == WithPresets(old(State()), ps, now)
    {
      var i := 0;
      while i < |ps|
        invariant 0 <= i <= |ps|
        invariant State() == WithPresets(old(State()), ps[..i], now)
      {
        var _ := Insert(PresetRecord(ps[i], now));
        assert ps[..i + 1][..i] == ps[..i];
        i := i + 1;
      }
      assert ps[..i] == ps;
    }

    /** `initializePresets`: when the table is empty, insert each preset in turn. */
    method InitializePresets(now: int)
      requires Valid()
      modifies this
      ensures Valid()
      ensures State() == AfterInitializePresets(old(State()), now)
    {
      var existing := rows;
      if |existing| == 0 {
        InsertPresets(PresetGradients, now);
      }
      InitializePresetsValid(old(State()), now);
    }

    /** `ensureDefaultImagePreset`: insert the Default Image preset unless a row already has its name. */
    method EnsureDefaultImagePreset(now: int)
      requires Valid()
      modifies this
      ensures Valid() && HasDefaultImage(State())
      ensures State() == AfterEnsureDefaultImage(old(State()), now)
    {
      var existing := FirstNamed(rows, DefaultImageName);
      if existing.None? {
        var _ := Insert(PresetRecord(DefaultImagePreset, now));
      }
      EnsureDefaultImageSpec(old(State()), now);
    }

    /** `addNewPresets`: the same check-then-insert of the Default Image preset. */
    method AddNewPresets(now: int)
      requires Valid()
      modifies this
      ensures Valid() && HasDefaultImage(State())
      ensures State() == AfterEnsureDefaultImage(old(State()), now)
    {
      EnsureDefaultImagePreset(now);
    }

    /** `create`: insert a variant row built from the arguments and return its id. */
    method Create(args: CreateArgs, user: Option<UserId>, now: int) returns (id: Id)
      requires Valid()
      modifies this
      ensures Valid()
      ensures (State(), id) == AfterCreate(old(State()), args, user, now)
    {
      CreateSpec(State(), args, user, now);
      id := Insert(VariantRecord(args, user, now));
    }

    /** `update`: throw "Gradient not found" for a missing id, otherwise patch that row in place. */
    method Update(id: Id, p: Patch, now: int) returns (outcome: Result<(), string>)
      requires Valid()
      modifies this
      ensures Valid()
      ensures AfterUpdate(old(State()), id, p, now).Err? ==>
        outcome == Err(NotFound) && State() == old(State())
      ensures AfterUpdate(old(State()), id, p, now).Ok? ==>
        outcome == Ok(()) && State() == AfterUpdate(old(State()), id, p, now).value
    {
      var found := FindId(rows, id);
      if found.None? {
        return Err(NotFound);
      }
      UpdateSpec(State(), id, p, now);
      var k := found.value;
      rows := rows[k := Merge(rows[k], p, now)];
      outcome := Ok(());
    }

    /** `remove`: delete the row with that id. */
    method Remove(id: Id)
      requires Valid()
      modifies this
      ensures Valid()
      ensures State() == AfterRemove(old(State()), id)
    {
      RemoveSpec(State(), id);
      rows := WithoutId(rows, id);
    }
  }
}
