/**
 * The gallery (src/components/GradientGallery.tsx): the loaded records
 * split into a Presets section and a My Gradients section by their source,
 * each card highlighted when it is the selected record, and an empty-state
 * message when there are no records at all.
 */
module Gallery {
  import opened Wrappers
  import opened Gradients

  /** `gradients.filter((g) => g.source === src)`. */
  function BySource(gs: seq<Gradient>, src: Source): (r: seq<Gradient>)
    ensures |r| <= |gs|
  {
    if gs == [] then []
    else
      var last := gs[|gs| - 1];
      BySource(gs[..|gs| - 1], src) + (if last.source == src then [last] else [])
  }

  /** The filter works record by record: it distributes over concatenation, so input order is kept. */
  lemma {:induction false} BySourceAppend(a: seq<Gradient>, b: seq<Gradient>, src: Source)
    ensures BySource(a + b, src) == BySource(a, src) + BySource(b, src)
    decreases |b|
  {
    if b == [] {
      assert a + b == a;
    } else {
      var b' := b[..|b| - 1];
      assert (a + b)[..|a + b| - 1] == a + b';
      BySourceAppend(a, b', src);
    }
  }

  /** A section holds exactly the records of its source, each as often as in the input. */
  lemma {:induction false} BySourceCount(gs: seq<Gradient>, src: Source, g: Gradient)
    ensures multiset(BySource(gs, src))[g] == if g.source == src then multiset(gs)[g] else 0
    decreases |gs|
  {
    if gs != [] {
      var front := gs[..|gs| - 1];
      BySourceCount(front, src, g);
      assert gs == front + [gs[|gs| - 1]];
    }
  }

  /** Presets and variants together are the input, as a multiset: every record lands in exactly one section. */
  lemma Partition(gs: seq<Gradient>)
    ensures multiset(BySource(gs, Preset)) + multiset(BySource(gs, Variant)) == multiset(gs)
    ensures |BySource(gs, Preset)| + |BySource(gs, Variant)| == |gs|
    ensures forall g :: g in gs ==> (g in BySource(gs, Preset) <==> g.source == Preset)
    ensures forall g :: g in gs ==> (g in BySource(gs, Variant) <==> g.source == Variant)
    ensures forall g :: g in BySource(gs, Preset) || g in BySource(gs, Variant) ==> g in gs
  {
    var ps := multiset(BySource(gs, Preset));
    var vs := multiset(BySource(gs, Variant));
    forall g ensures (ps + vs)[g] == multiset(gs)[g] {
      BySourceCount(gs, Preset, g);
      BySourceCount(gs, Variant, g);
    }
    assert ps + vs == multiset(gs);
    assert |ps + vs| == |multiset(gs)|;
    forall g | g in gs || g in BySource(gs, Preset) || g in BySource(gs, Variant)
      ensures g in BySource(gs, Preset) <==> g in gs && g.source == Preset
      ensures g in BySource(gs, Variant) <==> g in gs && g.source == Variant
    {
      BySourceCount(gs, Preset, g);
      BySourceCount(gs, Variant, g);
    }
  }

  // ---------------------------------------------------------------------------
  // The rendered gallery

  /** A card: the record and whether it carries the selection ring. */
  datatype Card = Card(gradient: Gradient, highlighted: bool)

  /** `presets.map(renderGradient)` and the like: `selectedId === gradient._id` decides the ring. */
  function Cards(gs: seq<Gradient>, selectedId: Option<Id>): (r: seq<Card>)
    ensures |r| == |gs|
    ensures forall i :: 0 <= i < |r| ==> r[i].gradient == gs[i]
    ensures forall i :: 0 <= i < |r| ==> (r[i].highlighted <==> selectedId == Some(gs[i].id))
  {
    seq(|gs|, i requires 0 <= i < |gs| => Card(gs[i], selectedId == Some(gs[i].id)))
  }

  /** What the gallery shows. */
  datatype View = View(
    showPresets: bool, presets: seq<Card>,
    showVariants: bool, variants: seq<Card>,
    showEmptyState: bool)

  function Render(gs: seq<Gradient>, selectedId: Option<Id>): View {
    var ps := BySource(gs, Preset);
    var vs := BySource(gs, Variant);
    View(|ps| > 0, Cards(ps, selectedId), |vs| > 0, Cards(vs, selectedId), |gs| == 0)
  }

  /**
   * A section is shown exactly when some record has its source, and the
   * empty-state message exactly when neither section is shown.
   */
  lemma RenderSections(gs: seq<Gradient>, selectedId: Option<Id>)
    ensures var v := Render(gs, selectedId);
      && (v.showPresets <==> exists i :: 0 <= i < |gs| && gs[i].source == Preset)
      && (v.showVariants <==> exists i :: 0 <= i < |gs| && gs[i].source == Variant)
      && (v.showEmptyState <==> |gs| == 0)
      && (v.showEmptyState <==> !v.showPresets && !v.showVariants)
  {
    SectionShown(gs, Preset);
    SectionShown(gs, Variant);
    Partition(gs);
  }

  /** A section is non-empty exactly when some record has its source. */
  lemma {:induction false} SectionShown(gs: seq<Gradient>, src: Source)
    ensures |BySource(gs, src)| > 0 <==> exists i :: 0 <= i < |gs| && gs[i].source == src
    decreases |gs|
  {
    if gs != [] {
      var front := gs[..|gs| - 1];
      SectionShown(front, src);
      if exists i :: 0 <= i < |front| && front[i].source == src {
        var i :| 0 <= i < |front| && front[i].source == src;
        assert gs[i] == front[i];
      }
      if exists i :: 0 <= i < |gs| && gs[i].source == src {
        var i :| 0 <= i < |gs| && gs[i].source == src;
        if i < |front| {
          assert front[i] == gs[i];
        }
      }
    }
  }


  /** Record ids are pairwise distinct, as in any listing of the table. */
  predicate DistinctIds(gs: seq<Gradient>) {
    forall i, j :: 0 <= i < j < |gs| ==> gs[i].id != gs[j].id
  }

  /** A filter keeps ids distinct. */
  lemma {:induction false} BySourceDistinct(gs: seq<Gradient>, src: Source)
    requires DistinctIds(gs)
    ensures DistinctIds(BySource(gs, src))
    ensures forall g :: g in BySource(gs, src) ==> g in gs
    decreases |gs|
  {
    if gs != [] {
      var front := gs[..|gs| - 1];
      var last := gs[|gs| - 1];
      BySourceDistinct(front, src);
      forall g | g in BySource(front, src) ensures g.id != last.id {
        var k :| 0 <= k < |front| && front[k] == g;
        assert gs[k] == g;
      }
    }
  }

  /** The cards of two sections side by side are the cards of the two lists side by side. */
  lemma CardsAppend(a: seq<Gradient>, b: seq<Gradient>, selectedId: Option<Id>)
    ensures Cards(a, selectedId) + Cards(b, selectedId) == Cards(a + b, selectedId)
  {
  }

  /** With distinct ids, the records of both sections together still have distinct ids. */
  lemma SectionsDistinct(gs: seq<Gradient>)
    requires DistinctIds(gs)
    ensures DistinctIds(BySource(gs, Preset) + BySource(gs, Variant))
  {
    var ps := BySource(gs, Preset);
    var vs := BySource(gs, Variant);
    BySourceDistinct(gs, Preset);
    BySourceDistinct(gs, Variant);
    Partition(gs);
    var all := ps + vs;
    forall i, j | 0 <= i < j < |all| ensures all[i].id != all[j].id {
      if j < |ps| {
        assert all[i] == ps[i] && all[j] == ps[j];
      } else if i >= |ps| {
        assert all[i] == vs[i - |ps|] && all[j] == vs[j - |ps|];
      } else {
        var a := ps[i];
        var b := vs[j - |ps|];
        assert all[i] == a && all[j] == b && a in ps && b in vs;
        var m :| 0 <= m < |gs| && gs[m] == a;
        var n :| 0 <= n < |gs| && gs[n] == b;
        assert m != n;
      }
    }
  }

  /** In a list with distinct ids, at most one card is highlighted, and one is exactly when the selection is in the list. */
  lemma CardsHighlight(l: seq<Gradient>, selectedId: Option<Id>)
    requires DistinctIds(l)
    ensures var cs := Cards(l, selectedId);
      && (forall i, j :: 0 <= i < j < |cs| && cs[i].highlighted ==> !cs[j].highlighted)
      && ((exists i :: 0 <= i < |cs| && cs[i].highlighted) <==> (exists g :: g in l && selectedId == Some(g.id)))
  {
    var cs := Cards(l, selectedId);
    if exists g :: g in l && selectedId == Some(g.id) {
      var g :| g in l && selectedId == Some(g.id);
      var i :| 0 <= i < |l| && l[i] == g;
      assert cs[i].highlighted;
    }
  }

  /** With distinct ids, at most one card in the whole gallery carries the ring, and one does exactly when the selection is listed. */
  lemma HighlightUnique(gs: seq<Gradient>, selectedId: Option<Id>)
    requires DistinctIds(gs)
    ensures var v := Render(gs, selectedId);
      var all := v.presets + v.variants;
      && (forall i, j :: 0 <= i < j < |all| && all[i].highlighted ==> !all[j].highlighted)
      && ((exists i :: 0 <= i < |all| && all[i].highlighted) <==> (exists g :: g in gs && selectedId == Some(g.id)))
  {
    var ps := BySource(gs, Preset);
    var vs := BySource(gs, Variant);
    CardsAppend(ps, vs, selectedId);
    SectionsDistinct(gs);
    CardsHighlight(ps + vs, selectedId);
    Partition(gs);
    assert forall g :: g in ps + vs <==> g in gs;
  }
}
