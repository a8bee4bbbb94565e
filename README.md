# Gradient image generator — a verified model

This project models the logic of a small web tool for designing linear
gradients and exporting them as 1536×864 PNG images. A Convex backend keeps
one `gradients` table, seeded with ten built-in presets. The React frontend
has several parts:

- the editing screen: selection, save, save-as-new, delete, random pastel
  variants and image uploads;
- the colour-stop editor;
- the canvas preview: the colour-stop filter, the gradient axis, the grain
  pass over the RGBA buffer, and image placement;
- a fixed "simple" screen;
- a CSS / Tailwind code panel;
- a gallery split into Presets and My Gradients.

The modules follow the source files:

| module | file | models |
|---|---|---|
| `Wrappers` | — | `Option` (null / undefined) and `Result` (a value or a thrown error message) |
| `Text` | — | JavaScript number rendering (`String(n)`, `n.toString(16)`), `join`, and the colour pattern `^#[0-9A-Fa-f]{6}$` |
| `GradientCss` | convex/gradients.ts | `generateGradientCSS`, plus a reader for its format that proves the format loses nothing |
| `Gradients` | convex/gradients.ts | the preset catalogue; the table as a value (`Table`, with one function per handler); the class `GradientStore`, whose methods change the table in place |
| `Generator` | src/components/GradientGenerator.tsx | pastel colours, variants, the upload checks, the initial selection, and the class `GeneratorState` holding the screen's state and handlers |
| `Editor` | src/components/GradientEditor.tsx | stop update, add (with the stable sort), remove, the text-field rules, and the variant count |
| `Preview` | src/components/GradientPreview.tsx | canvas stops, the axis, the in-place grain loop over an `array<Byte>`, and overlay / centre placement |
| `ExportName` | GradientGenerator.tsx / GradientPreview.tsx | the export slug and filename, shared by both files |
| `SimpleView` | src/components/SimpleView.tsx | the fixed gradient, the fixed filename, the screen state, and the grain pass |
| `CssDisplay` | src/components/GradientCSSDisplay.tsx | `getCSSGradient` and `getTailwindGradient` |
| `Gallery` | src/components/GradientGallery.tsx | the two sections, the highlight, and the empty state |

Platform inputs become parameters:

- `Date.now()` becomes `now` / `timestamp`;
- the authenticated user becomes `user: Option<UserId>`;
- each `Math.random()` draw becomes a real in [0, 1);
- cos and sin of the angle become reals;
- the per-pixel grain becomes one integer offset per pixel;
- a decoded image becomes its `Dimensions`, or `None` when decoding fails.

Ids are natural numbers handed out by a counter, so the table's rows are
kept in insertion order. `list` (`order("desc")`) is that order reversed.

Three behaviours are worth knowing when reading the table below:

- The editing screen picks its initial record with `find` over the
  newest-first list, so it takes the newest record named "Default Image".
  The backend's `getDefaultGradient` takes the oldest.
  `Generator.InitialSelectionNewest` and
  `Generator.InitialSelectionAgreesWithBackend` pin this down: the two agree
  whenever there is exactly one such record.
- The preview and the editing screen each write out the same slug rule
  (src/components/GradientPreview.tsx:93-97 and
  src/components/GradientGenerator.tsx:304-308). The model defines it once,
  in `ExportName`.
- The default-selection effect depends on the list and on the selection, so
  it re-runs whenever either changes. Generating a variant or deleting
  clears the selection, the effect then re-selects the initial record, and
  a non-empty list never leaves the screen at rest without a selection.
  `Generator.GeneratorState.GenerateVariantThenEffect`,
  `Generator.GeneratorState.DeleteThenEffect` and
  `Generator.GeneratorState.AddNewPresetsThenEffect` model a handler together with
  the re-run it causes. One consequence: the create branch of `handleSave`
  is reached at rest only while the list is empty. See "## Findings".

## Model

| member | source | states |
|---|---|---|
| Gradients.PresetCatalogue | convex/gradients.ts:19-125 | There are ten presets. Each has 2–4 `#rrggbb` stops, with positions non-decreasing from 0 to 100. Default Image comes first, and no other preset has its name |
| Gradients.PresetWellFormed | convex/gradients.ts:6-125 | Each catalogue entry is well formed: stop count, hex colours, first and last positions, and order |
| Gradients.DefaultImageCss | convex/gradients.ts:6-17 | The Default Image preset renders as `linear-gradient(135deg, #fdcbba 0%, #fbe0c1 40%, #fdf2e2 100%)` |
| Gradients.DefaultImageNumbers | convex/gradients.ts:7-12 | The angle and positions of Default Image render as "135", "0", "40" and "100" |
| GradientCss.EmptyStopsCss | convex/gradients.ts:128-136 | No stops give `linear-gradient(<angle>deg, )` |
| GradientCss.StopsCssCons | convex/gradients.ts:132-134 | With two or more stops, the list is the first stop's `<color> <pos>%`, then ", ", then the rest, in input order |
| GradientCss.StopsCssSingle | convex/gradients.ts:132-134 | A single stop is rendered without a separator |
| GradientCss.StopsCssEmpty | convex/gradients.ts:132-134 | For hex-coloured stops, the rendered list is empty exactly when there are no stops |
| GradientCss.ParseGradientCssRoundTrip | convex/gradients.ts:128-136 | Reading the css string back gives the same angle and stops, whenever the colours are `#rrggbb` |
| GradientCss.ParseStopsRoundTrip | convex/gradients.ts:132-134 | The rendered stop list, empty or not, reads back as the stops |
| GradientCss.ParseStopsNonEmptyRoundTrip | convex/gradients.ts:132-134 | A non-empty rendered stop list reads back as the stops, by induction on the list |
| GradientCss.ParseStopHeadRoundTrip | convex/gradients.ts:133 | One rendered stop reads back as that stop, whatever text follows it |
| GradientCss.ParseIntRoundTrip | convex/gradients.ts:133-135 | An integer in the template reads back as itself when a non-digit follows |
| GradientCss.GenerateGradientCssInjective | convex/gradients.ts:128-136 | Two hex-coloured records share a css string only if they share the angle and the stops |
| Gradients.FindId | convex/gradients.ts:273 | `ctx.db.get` finds the row with that id, or reports that no row has it |
| Gradients.FirstNamed | convex/gradients.ts:171-174 | `.filter(name == ...).first()` gives the first row with the name: no earlier row has it, and the result is None only when no row has it |
| Gradients.Reversed | convex/gradients.ts:231 | Position i of the listing holds row n−1−i |
| Gradients.ListNewestFirst | convex/gradients.ts:230-233 | `list` holds every row exactly once (as a multiset), with strictly decreasing ids |
| Gradients.ReversedMultiset | convex/gradients.ts:231 | Reversing keeps the multiset of rows |
| Gradients.GetGradient | convex/gradients.ts:272-274 | It returns a row with that id when one exists, and null exactly when none does |
| Gradients.GetDefaultGradient | convex/gradients.ts:313-327 | It returns null only for an empty table. Otherwise it returns the first row named "Default Image", and the first row when no row has that name |
| Gradients.InsertSpec | convex/gradients.ts:148-159 | An insert keeps every old row, appends one row under a fresh id, and keeps the table valid |
| Gradients.WithPresetsSpec | convex/gradients.ts:147-160 | Inserting presets in a loop appends one preset row per entry, in order, under consecutive ids, and keeps the table valid |
| Gradients.PresetsOnEmpty | convex/gradients.ts:145-160 | Seeding an empty table gives one row per preset, in order, each with source Preset, createdAt == updatedAt == now, and consistent css |
| Gradients.InitializePresetsOnEmpty | convex/gradients.ts:142-163 | On an empty table `initializePresets` inserts all ten presets, in catalogue order, with consistent css |
| Gradients.InitializePresetsNonEmpty | convex/gradients.ts:145 | On a non-empty table it changes nothing |
| Gradients.InitializePresetsValid | convex/gradients.ts:142-163 | It keeps the table valid |
| Gradients.InitializePresetsIdempotent | convex/gradients.ts:142-163 | A second call, at any time, is a no-op |
| Gradients.EnsureDefaultImageSpec | convex/gradients.ts:170-192 | Afterwards a row is named "Default Image". If one already existed the table is unchanged; otherwise exactly the Default Image preset row is appended |
| Gradients.EnsureDefaultImageIdempotent | convex/gradients.ts:170-192 | A second call is a no-op |
| Gradients.CreateSpec | convex/gradients.ts:361-380 | `create` keeps every old row and appends one row with source Variant. That row has the returned fresh id, every argument, the user, createdAt == updatedAt == now, and consistent css |
| Gradients.UpdateMissing | convex/gradients.ts:419-423 | An id no row has fails with "Gradient not found" |
| Gradients.UpdateSucceedsIffFound | convex/gradients.ts:417-434 | `update` succeeds exactly when some row has the id |
| Gradients.MergeSpec | convex/gradients.ts:425-432 | In `{...gradient, ...updates}`, an absent field keeps its old value and a present one overrides. Id, source, createdAt and user never change, css is recomputed from the merged angle and stops, and updatedAt becomes now. `mode` and `vibrantBlur` follow the same rule |
| Gradients.UpdateSpec | convex/gradients.ts:417-434 | A successful update rewrites the row with the id to its merge and leaves every other row as it was. The row count and counter stay the same, and the table stays valid |
| Gradients.UpdateRows | convex/gradients.ts:428-432 | Only the row with the id is rewritten |
| Gradients.UpdateValid | convex/gradients.ts:425-432 | The table stays valid after an update |
| Gradients.IdsDistinct | convex/schema.ts:1-45 | In a valid table, distinct rows have distinct ids |
| Gradients.NameOnlyUpdate | convex/gradients.ts:425-432 | A name-only patch keeps every row's angle, stops and css; the target row takes the new name |
| Gradients.WithoutIdSpec | convex/gradients.ts:442 | Removal keeps exactly the rows with another id, and changes nothing when no row has the id |
| Gradients.WithoutIdIncreasing | convex/gradients.ts:442 | Removal keeps ids increasing |
| Gradients.WithoutIdAbove | convex/gradients.ts:442 | Removal keeps every id above a bound that held before |
| Gradients.RemoveSpec | convex/gradients.ts:441-444 | `remove` deletes exactly the row with the id, keeps the counter and keeps the table valid |
| Gradients.GradientStore.constructor | convex/schema.ts:1-45 | The store starts as an empty, valid table |
| Gradients.GradientStore.Insert | convex/gradients.ts:148 | `ctx.db.insert`: the table becomes the old table with the row appended under the returned id |
| Gradients.GradientStore.InsertPresets | convex/gradients.ts:147-160 | The insert loop: the table becomes the old table with every preset appended |
| Gradients.GradientStore.InitializePresets | convex/gradients.ts:142-163 | The new table is exactly the seeding function applied to the old one, and it stays valid |
| Gradients.GradientStore.EnsureDefaultImagePreset | convex/gradients.ts:170-192 | The new table is the check-then-insert of the old one; it stays valid and holds a Default Image row |
| Gradients.GradientStore.AddNewPresets | convex/gradients.ts:451-474 | Behaves exactly like `ensureDefaultImagePreset` |
| Gradients.GradientStore.Create | convex/gradients.ts:361-380 | The new table and the returned id are those of `AfterCreate` |
| Gradients.GradientStore.Update | convex/gradients.ts:417-434 | A missing id gives the error "Gradient not found" and leaves the table unchanged. Otherwise the table becomes the patched table |
| Gradients.GradientStore.Remove | convex/gradients.ts:441-444 | The table loses the row with the id |
| Text.NatToDigits | src/components/GradientGenerator.tsx:197 | `n.toString(base)` gives lower-case digits below the radix, reads back as n, and has no leading zero |
| Text.DigitsRoundTrip | src/components/GradientGenerator.tsx:197 | The digits of n read back as n |
| Text.DigitsNoLeadingZero | src/components/GradientGenerator.tsx:197 | The first digit is not '0' unless n is 0 |
| Text.IntToString | convex/gradients.ts:133-135 | The decimal rendering of an integer is non-empty and starts with '-' exactly for negatives |
| Text.IntToStringInjective | convex/gradients.ts:133-135 | Distinct integers never render alike |
| Text.Utf16Length | src/components/GradientEditor.tsx:150 | `value.length` counts UTF-16 code units: between one and two per character, and equal to the character count exactly when every character lies in the Basic Multilingual Plane |
| Generator.StopsRoundTrip | src/components/GradientGenerator.tsx:75-78 | Converting between stored `{position, color}` and editor `{color, position}` stops loses nothing, in either direction |
| Generator.InitialConfigIsDefaultImage | src/components/GradientGenerator.tsx:33-43 | The screen's initial configuration is the backend's Default Image preset |
| Generator.PastelChannel | src/components/GradientGenerator.tsx:194-196 | `floor(random*100 + 155)` lies in 155..254 |
| Generator.PadStart | src/components/GradientGenerator.tsx:197 | `padStart` keeps the text at the end and fills the front up to the width |
| Generator.Hex2 | src/components/GradientGenerator.tsx:197 | A channel below 256 becomes two lower-case hex digits that read back as the channel |
| Generator.PastelColor | src/components/GradientGenerator.tsx:197 | `#` then two lower-case hex digits per channel, in r, g, b order: the colour matches `^#[0-9A-Fa-f]{6}$`, and each pair reads back as its channel |
| Generator.RandomPastelColor | src/components/GradientGenerator.tsx:193-198 | Each channel of a random pastel colour reads back within 155..254 |
| Generator.VariantPositions | src/components/GradientGenerator.tsx:200-219 | Counts 2, 3 and 4 give that many strictly ascending positions from 0 to 100; any other count gives none |
| Generator.VariantStops | src/components/GradientGenerator.tsx:200-219 | One `#rrggbb` stop per position, in order |
| Generator.GenerateVariant | src/components/GradientGenerator.tsx:221-226 | A variant keeps name and tags, has an angle in 0..359, grain in [0.05, 0.15), and the variant stops |
| Generator.VariantOtherCountEmpty | src/components/GradientGenerator.tsx:200-219 | A count other than 2, 3 or 4 gives no stops |
| Generator.CheckUpload | src/components/GradientGenerator.tsx:231-241 | Size over 3 MiB is rejected first; then any type other than png or svg+xml; otherwise accepted (each case as an iff) |
| Generator.InitialSelection | src/components/GradientGenerator.tsx:69 | `find(name == "Default Image") \|\| list[0]` gives the first Default Image record, otherwise the first record, and nothing only for an empty list |
| Generator.InitialSelectionNewest | src/components/GradientGenerator.tsx:67-84 | Over the backend's list, the initial selection is a table row: the newest Default Image record if there is one, otherwise the newest record |
| Generator.SelectionIsNewest | src/components/GradientGenerator.tsx:69 | Over a list with decreasing ids, the selection is the Default Image record with the highest id, or the record with the highest id |
| Generator.ListDecreasing | convex/gradients.ts:231 | The list of a valid table has decreasing ids and holds exactly the table's rows |
| Generator.ListMembers | convex/gradients.ts:231 | The list holds exactly the table's rows |
| Generator.InitialSelectionAgreesWithBackend | src/components/GradientGenerator.tsx:69 | With exactly one Default Image row, the screen's selection equals `getDefaultGradient` |
| Generator.InitEffectSpec | src/components/GradientGenerator.tsx:55-64 | After the init effect's seeding the table is valid and holds Default Image, and seeding again changes nothing |
| Generator.SaveThenSelect | src/components/GradientGenerator.tsx:114-129 | After a save-by-update, selecting the record loads the configuration back with tags cleared, with css consistent and id and source kept |
| Generator.SaveAsNewThenSelect | src/components/GradientGenerator.tsx:149-166 | Save-as-new stores a Variant row under the returned id that loads back as the configuration under its new name, tags cleared |
| Generator.GeneratorState.constructor | src/components/GradientGenerator.tsx:32-50 | The initial configuration, no selection, not initialised, no images, overlay size 200, centre size 300. The corrected default selection (see "## Findings") has not fired |
| Generator.GeneratorState.InitEffect | src/components/GradientGenerator.tsx:55-64 | It fires only once the list has loaded and before initialising: an empty list runs `initializePresets`, any other runs `ensureDefaultImagePreset`. Otherwise nothing changes |
| Generator.GeneratorState.SelectDefaultEffect | src/components/GradientGenerator.tsx:67-84 | With a non-empty list and no selection, it selects the initial selection and loads its configuration. Otherwise nothing changes |
| Generator.GeneratorState.SelectGradient | src/components/GradientGenerator.tsx:97-112 | A listed id is selected and its configuration loaded; an id not in the list changes nothing |
| Generator.GeneratorState.Save | src/components/GradientGenerator.tsx:114-147 | With a selection it calls `update` with the configuration and `tags: []`, keeping the selection. Without one it calls `create`, selects the new id and takes the new name |
| Generator.GeneratorState.SaveAsNew | src/components/GradientGenerator.tsx:149-170 | It always creates, selects the new id and takes the new name |
| Generator.GeneratorState.Delete | src/components/GradientGenerator.tsx:172-181 | Without a selection nothing happens. Otherwise the selected row is removed and the selection cleared |
| Generator.GeneratorState.AddNewPresets | src/components/GradientGenerator.tsx:183-190 | The table becomes that of `addNewPresets` |
| Generator.GeneratorState.GenerateVariantAction | src/components/GradientGenerator.tsx:192-228 | The configuration becomes the variant and the selection is cleared |
| Generator.GeneratorState.GenerateVariantThenEffect | src/components/GradientGenerator.tsx:67-84 | After a variant, the effect re-runs because the selection changed. With a prior selection and a non-empty list, the screen shows the initial selection again and the variant is gone. Otherwise the variant stays, unselected |
| Generator.GeneratorState.DeleteThenEffect | src/components/GradientGenerator.tsx:172-181 | Without a selection nothing changes. Otherwise the selected row is removed; if rows remain, the initial selection of the remaining list is selected and loaded, else the selection stays cleared and the configuration unchanged |
| Generator.GeneratorState.AddNewPresetsThenEffect | src/components/GradientGenerator.tsx:183-190 | The table becomes that of `addNewPresets`. With nothing selected (as after deleting every record), the effect re-runs on the changed list and selects and loads the newest Default Image row; an existing selection is kept |
| Generator.GeneratorState.SelectDefaultOnce | src/components/GradientGenerator.tsx:66-84 | Corrected effect: the first non-empty list marks the default selection as made, and selects the initial selection if nothing is selected. Later runs change nothing |
| Generator.GeneratorState.GenerateVariantKept | src/components/GradientGenerator.tsx:192-228 | With the corrected effect, once the default selection has been made, a variant stays on screen, unselected, whatever the list holds |
| Generator.GeneratorState.ImageUpload | src/components/GradientGenerator.tsx:231-257 | A rejected or undecodable file leaves the overlay as it was; an accepted decoded image replaces it |
| Generator.GeneratorState.RemoveImage | src/components/GradientGenerator.tsx:259-263 | The overlay is cleared |
| Generator.GeneratorState.CenterImageUpload | src/components/GradientGenerator.tsx:266-292 | The same checks as the overlay upload, for the centre image |
| Generator.GeneratorState.RemoveCenterImage | src/components/GradientGenerator.tsx:294-298 | The centre image is cleared |
| ExportName.Slug | src/components/GradientPreview.tsx:93-96 | The slug holds only `[a-z0-9-]` and is no longer than the name |
| ExportName.SlugSpacedWords | src/components/GradientGenerator.tsx:304-307 | Words without whitespace joined by spaces give their slugs joined by single hyphens |
| ExportName.HyphenateRun | src/components/GradientGenerator.tsx:306 | A whole whitespace run becomes one hyphen |
| ExportName.HyphenateWord | src/components/GradientGenerator.tsx:306 | Text without whitespace passes through the replacement unchanged |
| ExportName.HyphenateSpec | src/components/GradientGenerator.tsx:306 | After the replacement no whitespace is left, and the text is no longer |
| ExportName.KeepSlugCharsSpec | src/components/GradientGenerator.tsx:307 | The filter keeps only `[a-z0-9-]` |
| ExportName.KeepSlugCharsOfSlug | src/components/GradientGenerator.tsx:307 | Text made of slug characters passes through the filter unchanged |
| ExportName.SlugIdempotent | src/components/GradientGenerator.tsx:304-307 | Slugging a slug changes nothing |
| ExportName.SlugAppendNoSpace | src/components/GradientGenerator.tsx:304-307 | Without whitespace, the slug of a concatenation is the concatenation of the slugs |
| ExportName.SlugTwoWords | src/components/GradientGenerator.tsx:304-307 | Two words joined by a space slug to their slugs joined by a hyphen |
| ExportName.SlugThreeWords | src/components/GradientGenerator.tsx:304-307 | The same for three words |
| ExportName.SlugExample | src/components/GradientGenerator.tsx:304-307 | "My Cool Gradient!" becomes "my-cool-gradient" |
| ExportName.ExportFilename | src/components/GradientGenerator.tsx:303-308 | The filename is `component-gradient-`, the slug, `-`, the timestamp and `.png`, each in its place |
| Editor.UpdateColorStop | src/components/GradientEditor.tsx:51-55 | It keeps the length and every other field of the configuration, and changes only slot i. There, present fields override and absent ones are kept |
| Editor.SortByPositionSpec | src/components/GradientEditor.tsx:59-62 | `sort` by position gives a sorted permutation in which stops at equal positions keep their order |
| Editor.InsertAtPosition | src/components/GradientEditor.tsx:62 | Insertion places a stop after every stop already at its position |
| Editor.InsertSorted | src/components/GradientEditor.tsx:62 | Insertion keeps the list sorted |
| Editor.InsertMultiset | src/components/GradientEditor.tsx:62 | Insertion adds the stop once and loses nothing |
| Editor.AddColorStopSpec | src/components/GradientEditor.tsx:57-64 | At four or more stops, nothing changes. Otherwise the result is one longer, sorted, and the old stops plus `#FFFFFF` at 50 as a multiset, with the order kept among equal positions |
| Editor.WithoutIndexSpec | src/components/GradientEditor.tsx:68 | `filter((_, i) => i !== index)` is `s[..index] + s[index+1..]`, or `s` when index is out of range |
| Editor.RemoveColorStopSpec | src/components/GradientEditor.tsx:66-70 | At two or fewer stops, nothing changes. Otherwise exactly slot index is removed and the others keep their relative order |
| Editor.StopCountStaysInRange | src/components/GradientEditor.tsx:123-180 | From 2–4 stops, adding and removing keep the count within 2–4, matching the button guards (`< 4`, `> 2`) |
| Editor.OnColorTextSpec | src/components/GradientEditor.tsx:148-153 | A typed value reaches the stop exactly when it starts with '#' and its JavaScript `length` (UTF-16 code units) is at most 7; nothing else changes |
| Editor.HexColorsAccepted | src/components/GradientEditor.tsx:150 | Every `#rrggbb` colour is accepted while typing |
| Editor.AstralCharacterCountsTwice | src/components/GradientEditor.tsx:150 | `#aaaaa` followed by one character outside the Basic Multilingual Plane has 7 characters, yet it is refused because its `length` is 8 |
| Editor.OnColorBlurUnchanged | src/components/GradientEditor.tsx:154-158 | Blur writes the stop's own colour back, so the configuration is unchanged |
| Editor.EditorState.constructor | src/components/GradientEditor.tsx:49 | The count starts at 3, one of the offered counts |
| Editor.EditorState.ChooseCount | src/components/GradientEditor.tsx:360-363 | A count button sets the count, which stays in {2, 3, 4} |
| Editor.VariantHasChosenCount | src/components/GradientEditor.tsx:375-376 | A variant made with the chosen count has exactly that many stops, within 2–4 |
| Preview.CanvasStopsMembers | src/components/GradientPreview.tsx:36-41 | A canvas stop is added exactly when some stop has a `#rrggbb` colour and gives it (offset position/100) |
| Preview.CanvasStopsAppend | src/components/GradientPreview.tsx:36-41 | The filter works stop by stop, in input order |
| Preview.CanvasStopsSingle | src/components/GradientPreview.tsx:38-39 | One stop reaches the canvas at position/100 exactly when its colour matches |
| Preview.CanvasStopsAllHex | src/components/GradientPreview.tsx:36-41 | With all colours well formed, every stop reaches the canvas, in order |
| Preview.AxisEndpoints | src/components/GradientPreview.tsx:29-33 | For any cos and sin, the endpoints are symmetric about the centre (x0 + x1 = 1536, y0 + y1 = 864) and span cos·1536 and sin·864 |
| Preview.Clamp | src/components/GradientPreview.tsx:52-54 | Saturation of an integral value to 0..255 |
| Preview.GrainedSpec | src/components/GradientPreview.tsx:50-55 | Alpha bytes are kept. The R, G and B bytes of pixel k become clamp(byte + grain[k]) |
| Preview.ApplyGrain | src/components/GradientPreview.tsx:50-55 | The in-place loop, stepping by 4, leaves the buffer equal to the grained buffer, with the same length |
| Preview.FitScaleBounds | src/components/GradientPreview.tsx:66-68 | Scaling by min(S/w, S/h) keeps both sides within S and puts one of them on S |
| Preview.FitWithin | src/components/GradientPreview.tsx:63-68 | The drawn size fits the S×S box, touches one side, and keeps the aspect ratio |
| Preview.OverlayPlacement | src/components/GradientPreview.tsx:60-71 | The overlay is drawn at (64, 64) at the fitted size |
| Preview.CenterPlacement | src/components/GradientPreview.tsx:74-86 | The centre image is fitted and placed at ((1536−w′)/2, (864−h′)/2): its centre is the canvas centre, with equal margins |
| Preview.CenterPlacementInside | src/components/GradientPreview.tsx:74-86 | A centre box no larger than 864 lies wholly inside the canvas |
| SimpleView.FixedGradientIsDefaultImage | src/components/SimpleView.tsx:5-14 | The fixed gradient has the backend Default Image's name, angle, stops and grain |
| SimpleView.FixedStopsAllReachCanvas | src/components/SimpleView.tsx:45-47 | Adding every fixed stop without the colour test gives the same stops as the preview's filter |
| SimpleView.FixedNameSlug | src/components/SimpleView.tsx:138 | "Default Image" slugs to "default-image" |
| SimpleView.FixedExportFilenameIsGeneric | src/components/SimpleView.tsx:137-138 | The fixed filename `component-gradient-default-image-<ts>.png` equals the generic rule applied to "Default Image" |
| SimpleView.SimpleViewState.constructor | src/components/SimpleView.tsx:17-19 | No centre image, centre size 400, within the slider's 100..800 |
| SimpleView.SimpleViewState.CenterImageUpload | src/components/SimpleView.tsx:82-108 | Oversize files are rejected first, then other types, and either rejection leaves the image unchanged. An accepted decoded image replaces it |
| SimpleView.SimpleViewState.RemoveCenterImage | src/components/SimpleView.tsx:127-131 | The centre image is cleared |
| SimpleView.SimpleViewState.SetCenterSize | src/components/SimpleView.tsx:227-231 | The slider sets a size in 100..800 |
| SimpleView.SimpleViewState.CenterDrawn | src/components/SimpleView.tsx:66-78 | An image is drawn exactly when one is set: fitted, centred, and wholly inside the canvas |
| SimpleView.ApplyFixedGrain | src/components/SimpleView.tsx:56-61 | Alpha is kept; each pixel's R, G and B are shifted by its one offset and clamped |
| CssDisplay.CssMatchesBackend | src/components/GradientCSSDisplay.tsx:9-14 | For the same angle and stops, the panel's CSS equals the backend's `generateGradientCSS` |
| CssDisplay.CssGradientRoundTrip | src/components/GradientCSSDisplay.tsx:9-14 | With `#rrggbb` colours, the panel's CSS reads back as its angle and stops, in input order |
| CssDisplay.TailwindGradient | src/components/GradientCSSDisplay.tsx:16-28 | The class starts with `bg-gradient-`, followed by the mapped direction or `[<angle>deg]` |
| CssDisplay.NamedAngles | src/components/GradientCSSDisplay.tsx:17-26 | The named angles are exactly the multiples of 45 in 0..315 |
| CssDisplay.NamedDirections | src/components/GradientCSSDisplay.tsx:17-26 | Every named direction starts with `to-` |
| CssDisplay.NamedDirectionsDistinct | src/components/GradientCSSDisplay.tsx:17-26 | Distinct named angles map to distinct directions |
| CssDisplay.TailwindGradientInjective | src/components/GradientCSSDisplay.tsx:27-28 | The class determines the angle |
| Gallery.BySource | src/components/GradientGallery.tsx:21-22 | A section is never longer than the input |
| Gallery.BySourceAppend | src/components/GradientGallery.tsx:21-22 | The filter works record by record, so input order is kept |
| Gallery.BySourceCount | src/components/GradientGallery.tsx:21-22 | A section holds each record of its source as often as the input does, and nothing else |
| Gallery.Partition | src/components/GradientGallery.tsx:21-22 | Presets and variants together are the input as a multiset. Each record lands in exactly the section of its source |
| Gallery.Cards | src/components/GradientGallery.tsx:30 | A card is highlighted iff its id is the selected id |
| Gallery.RenderSections | src/components/GradientGallery.tsx:66-86 | A section is shown iff some record has its source. The empty state is shown iff the input is empty, that is, iff neither section is shown |
| Gallery.SectionShown | src/components/GradientGallery.tsx:66-75 | A section is non-empty iff some record has its source |
| Gallery.BySourceDistinct | src/components/GradientGallery.tsx:21-22 | Filtering keeps ids distinct |
| Gallery.SectionsDistinct | src/components/GradientGallery.tsx:21-22 | Both sections together still have distinct ids |
| Gallery.CardsHighlight | src/components/GradientGallery.tsx:30 | With distinct ids, at most one card in a list is highlighted, and one is exactly when the selection is in the list |
| Gallery.HighlightUnique | src/components/GradientGallery.tsx:24-86 | Across the whole gallery, at most one card is highlighted, and one is exactly when the selected record is listed |

## Left out

- Canvas and platform calls are not modelled: `getContext`, `createLinearGradient`, `fillRect`, `getImageData`/`putImageData`, `drawImage` and `toDataURL`. Nor are link-click downloads, FileReader, image decoding, toasts and clipboard writes. The model keeps what these calls are given: canvas stops, axis endpoints, the byte buffer and placements.
- Floating point: placement is exact `real` arithmetic, and cos and sin are parameters. A zero-sized image, where `min(S/0, …)` would give Infinity or NaN, is excluded by a precondition.
- Preview.ApplyGrain: the offset `(random − 0.5)·255·grainIntensity` is given as an integer per pixel. The round-half-to-even step of ToUint8Clamp (section 7.1.12 of ECMA-262) on fractional values is abstracted away, and `Clamp` saturates an integer.
- Generator.GenerateVariant: the angle and grain are computed from real draws. The real-to-JavaScript-number conversion is not modelled.
- Angles and positions are integers with JavaScript's decimal rendering. Non-integral numbers and their rendering are not modelled.
- ExportName.Slug: `toLowerCase` maps only the ASCII letters. Letters outside ASCII that JavaScript lower-cases to ASCII (such as U+212A KELVIN SIGN) are not modelled. `\s` is the full JavaScript whitespace set.
- The name from `generateGradientName` (`toLocaleString`) is a parameter.
- The check-then-insert race in the seeding handlers is a concurrency matter and is not modelled; each handler is one atomic step.
- Authentication (`getAuthUserId`) is a parameter. The `mode` and `vibrantBlur` fields are stored and copied by `create`/`update`, but nothing reads them.
- The UI wiring is not modelled: the angle, overlay-size and editor centre-size sliders are plain setters, and error toasts, JSX and styling are left out.
- src/App.tsx is not part of this model: it only toggles between the two screens.
- Generator.GeneratorState.SelectDefaultEffect: the effect's re-runs are composed with `handleGenerateVariant`, `handleDelete` and `handleAddNewPresets`. After `handleSave`, `handleSaveAsNew` and `handleSelectGradient` the selection is set, so a re-run changes nothing; the seeding effect's insertions on first load reach the default selection through `SelectDefaultEffect` itself.

## Findings

| source | as written | input that shows it | evidently intended | confidence | as-written member | corrected member |
|---|---|---|---|---|---|---|
| src/components/GradientGenerator.tsx:66-84 | The "select Default Image on load" effect lists `selectedId` as a dependency and fires whenever nothing is selected. `handleGenerateVariant` clears the selection (line 227), so the effect re-runs at once and reloads the initial record over the new variant | A non-empty list with any record selected, then "Generate Random Variant" with 3 colours: the screen shows the Default Image configuration again, and the variant is lost | The default is selected once, on load; a variant then stays on screen, unselected, until saved | high (not executed) | Generator.GeneratorState.GenerateVariantThenEffect | Generator.GeneratorState.GenerateVariantKept |
