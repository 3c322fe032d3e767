/** The overlay functions of App.tsx that add layers to the map and take them
    down again: `addSegments` / `deleteSegments`, `addStravaHeatmaps` /
    `deleteStravaHeatmap` and `addKomootTrailview` / `deleteTrailViews` /
    `deleteHeatMap`. Each is a method that takes a `MapSurface` and updates it
    in place, proved against a function on scenes; the lemmas state what those functions do. */
module Lifecycle {
  import opened Decimal
  import opened Tiles
  import opened Overlays
  import opened SceneModel
  import opened Surface

  // ======================= segments =======================

  /** A route segment of the segment-explore response. */
  datatype Segment = Segment(id: nat, name: string, points: string)

  const HighlightColour := "#0fe400"
  const SegmentColour := "#0074e4"

  function Reversed<T>(s: seq<T>): (r: seq<T>)
    ensures |r| == |s|
  {
    seq(|s|, i requires 0 <= i < |s| => s[|s| - 1 - i])
  }

  /** `Array.prototype.reverse`: the caller's array is reversed in place. */
  method Reverse(a: array<Segment>)
    modifies a
    ensures a[..] == Reversed(old(a[..]))
  {
    var n, i := a.Length, 0;
    while i < n / 2
      invariant 0 <= i <= n / 2
      invariant forall k :: 0 <= k < i ==> a[k] == old(a[n - 1 - k]) && a[n - 1 - k] == old(a[k])
      invariant forall k :: i <= k < n - i ==> a[k] == old(a[k])
    {
      a[i], a[n - 1 - i] := a[n - 1 - i], a[i];
      i := i + 1;
    }
  }

  /** `${segment.id}`: the id of the layer (and of its inline source). */
  function SegmentLayerId(s: Segment): string {
    NatToString(s.id)
  }

  function SegmentIds(segs: seq<Segment>): seq<string> {
    seq(|segs|, k requires 0 <= k < |segs| => SegmentLayerId(segs[k]))
  }

  /** The line layer drawn for `segs[i]`; the last one drawn is highlighted. */
  function SegmentLayer(segs: seq<Segment>, i: nat): Layer
    requires i < |segs|
  {
    var id := SegmentLayerId(segs[i]);
    Layer(id, id, Line(if i == |segs| - 1 then HighlightColour else SegmentColour))
  }

  function SegmentEntries(segs: seq<Segment>): seq<Entry> {
    seq(|segs|, k requires 0 <= k < |segs| => Entry(SegmentLayer(segs, k), SegmentLine(segs[k].points)))
  }

  /** One iteration of `addSegments`' `forEach`: the line layer with its inline
      source, then the click handler on it. */
  function DrawSegment(sc: Scene, segs: seq<Segment>, i: nat): Scene
    requires i < |segs|
  {
    var id := SegmentLayerId(segs[i]);
    On(AddLayer(sc, id, Inline(SegmentLine(segs[i].points)), SegmentLayer(segs, i).style), id)
  }

  /** The iterations from `i` on. */
  function SegmentsDrawn(sc: Scene, segs: seq<Segment>, i: nat): Scene
    requires i <= |segs|
    decreases |segs| - i
  {
    if i == |segs| then sc else SegmentsDrawn(DrawSegment(sc, segs, i), segs, i + 1)
  }

  /** `addSegments(segments, map)`. */
  method AddSegments(segments: array<Segment>, m: MapSurface)
    modifies segments, m
    ensures segments[..] == Reversed(old(segments[..]))
    ensures m.State() == SegmentsDrawn(old(m.State()), segments[..], 0)
  {
    Reverse(segments);
    ghost var segs, start := segments[..], m.State();
    var i := 0;
    while i < segments.Length
      invariant 0 <= i <= segments.Length
      invariant segments[..] == segs
      invariant SegmentsDrawn(m.State(), segs, i) == SegmentsDrawn(start, segs, 0)
    {
      var segment := segments[i];
      var id := NatToString(segment.id);
      ghost var before := m.State();
      m.AddLayer(id, Inline(SegmentLine(segment.points)), Line(if i == segments.Length - 1 then HighlightColour else SegmentColour));
      m.On(id);
      assert m.State() == DrawSegment(before, segs, i);
      i := i + 1;
    }
  }

  /** The segments can be drawn on `sc` without a refusal: distinct ids, none
      of them already a layer or source id. */
  predicate FreshSegments(sc: Scene, segs: seq<Segment>) {
    WellFormed(sc) &&
    (forall k :: 0 <= k < |segs| ==> SegmentLayerId(segs[k]) !in LayerIds(sc.layers) && SegmentLayerId(segs[k]) !in sc.sources) &&
    (forall j, k :: 0 <= j < k < |segs| ==> segs[j].id != segs[k].id)
  }

  lemma FreshSegmentEntries(sc: Scene, segs: seq<Segment>)
    requires FreshSegments(sc, segs)
    ensures FreshEntries(sc, SegmentEntries(segs))
  {
    var es := SegmentEntries(segs);
    forall j, k | 0 <= j < k < |es|
      ensures es[j].layer.id != es[k].layer.id && es[j].layer.source != es[k].layer.source
    {
      if SegmentLayerId(segs[j]) == SegmentLayerId(segs[k]) {
        NatToStringInjective(segs[j].id, segs[k].id);
      }
    }
  }

  /** One iteration of `addSegments` on a fresh id adds the segment's entry. */
  lemma DrawSegmentInstalls(sc: Scene, segs: seq<Segment>, i: nat)
    requires i < |segs| && FreshEntries(sc, SegmentEntries(segs)[i..])
    ensures DrawSegment(sc, segs, i) == Installed(sc, [SegmentEntries(segs)[i]]).(handlers := sc.handlers + [SegmentLayerId(segs[i])])
    ensures WellFormed(Installed(sc, [SegmentEntries(segs)[i]]))
  {
    var e := SegmentEntries(segs)[i];
    assert e == SegmentEntries(segs)[i..][0];
    assert e.layer.id !in LayerIds(sc.layers) && e.layer.source !in sc.sources;
    InstalledOne(sc, e);
    InstalledWellFormed(sc, [e]);
  }

  lemma SegmentIdsSplit(segs: seq<Segment>, i: nat)
    requires i < |segs|
    ensures SegmentIds(segs)[i..] == [SegmentLayerId(segs[i])] + SegmentIds(segs)[i + 1..]
  {
    var a, b := SegmentIds(segs)[i..], [SegmentLayerId(segs[i])] + SegmentIds(segs)[i + 1..];
    assert |a| == |b|;
    forall k | 0 <= k < |a| ensures a[k] == b[k] {
      if k > 0 {
        assert b[k] == SegmentIds(segs)[i + 1..][k - 1];
      }
    }
  }

  /** After one iteration on a fresh id, the remaining segments are still fresh. */
  lemma DrawSegmentKeepsFresh(sc: Scene, segs: seq<Segment>, i: nat)
    requires i < |segs| && FreshEntries(sc, SegmentEntries(segs)[i..])
    ensures FreshEntries(DrawSegment(sc, segs, i), SegmentEntries(segs)[i + 1..])
  {
    var es := SegmentEntries(segs)[i..];
    assert es[0] == SegmentEntries(segs)[i] && es[1..] == SegmentEntries(segs)[i + 1..];
    DrawSegmentInstalls(sc, segs, i);
    FreshAfterFirst(sc, es, sc.handlers + [SegmentLayerId(segs[i])]);
  }

  /** One iteration followed by the installed rest installs the whole batch. */
  lemma DrawSegmentThenRest(sc: Scene, segs: seq<Segment>, i: nat)
    requires i < |segs| && FreshEntries(sc, SegmentEntries(segs)[i..])
    ensures var ds := DrawSegment(sc, segs, i);
      Installed(ds, SegmentEntries(segs)[i + 1..]).(handlers := ds.handlers + SegmentIds(segs)[i + 1..])
      == Installed(sc, SegmentEntries(segs)[i..]).(handlers := sc.handlers + SegmentIds(segs)[i..])
  {
    var es := SegmentEntries(segs)[i..];
    var h1, h := sc.handlers + [SegmentLayerId(segs[i])], sc.handlers + SegmentIds(segs)[i..];
    assert es[0] == SegmentEntries(segs)[i] && es[1..] == SegmentEntries(segs)[i + 1..];
    DrawSegmentInstalls(sc, segs, i);
    SegmentIdsSplit(segs, i);
    assert h1 + SegmentIds(segs)[i + 1..] == h;
    InstalledStep(sc, es, h1, h);
  }

  lemma {:induction false} SegmentsDrawnInstalls(sc: Scene, segs: seq<Segment>, i: nat)
    requires i <= |segs| && FreshEntries(sc, SegmentEntries(segs)[i..])
    ensures SegmentsDrawn(sc, segs, i) == Installed(sc, SegmentEntries(segs)[i..]).(handlers := sc.handlers + SegmentIds(segs)[i..])
    decreases |segs| - i
  {
    if i == |segs| {
      assert LayersOf(SegmentEntries(segs)[i..]) == [];
    } else {
      DrawSegmentKeepsFresh(sc, segs, i);
      SegmentsDrawnInstalls(DrawSegment(sc, segs, i), segs, i + 1);
      DrawSegmentThenRest(sc, segs, i);
    }
  }

  /** `addSegments` on fresh ids draws one line layer per segment, on top of
      the existing layers, in the order given, each with its own source and a
      click handler; only the last one drawn has the highlight colour. */
  lemma SegmentsDrawnOnTop(sc: Scene, segs: seq<Segment>)
    requires FreshSegments(sc, segs)
    ensures WellFormed(SegmentsDrawn(sc, segs, 0))
    ensures SegmentsDrawn(sc, segs, 0).layers == sc.layers + seq(|segs|, k requires 0 <= k < |segs| => SegmentLayer(segs, k))
    ensures SegmentsDrawn(sc, segs, 0).handlers == sc.handlers + SegmentIds(segs)
    ensures forall k :: 0 <= k < |segs| ==> SegmentLayerId(segs[k]) in SegmentsDrawn(sc, segs, 0).sources
  {
    FreshSegmentEntries(sc, segs);
    var es := SegmentEntries(segs);
    assert es[0..] == es;
    assert SegmentIds(segs)[0..] == SegmentIds(segs);
    SegmentsDrawnInstalls(sc, segs, 0);
    assert LayersOf(es) == seq(|segs|, k requires 0 <= k < |segs| => SegmentLayer(segs, k));
    InstalledWellFormed(sc, es);
    PutSourcesKeys(sc.sources, es);
    forall k | 0 <= k < |segs| ensures SegmentLayerId(segs[k]) in SourcesOf(es) {
      assert es[k] in es;
    }
  }

  lemma FreshSegmentsReversed(sc: Scene, segs: seq<Segment>)
    requires FreshSegments(sc, segs)
    ensures FreshSegments(sc, Reversed(segs))
  {
    var r := Reversed(segs);
    forall k | 0 <= k < |r|
      ensures SegmentLayerId(r[k]) !in LayerIds(sc.layers) && SegmentLayerId(r[k]) !in sc.sources
    {
      assert r[k] == segs[|segs| - 1 - k];
    }
    forall j, k | 0 <= j < k < |r| ensures r[j].id != r[k].id {
      assert r[j] == segs[|segs| - 1 - j] && r[k] == segs[|segs| - 1 - k];
    }
  }

  /** The caller's first segment (the most relevant one) ends up as the top
      layer and is the only one with the highlight colour; the others lie
      below it in reverse order. */
  lemma MostRelevantSegmentOnTop(sc: Scene, segs: seq<Segment>)
    requires FreshSegments(sc, segs) && segs != []
    ensures var r := SegmentsDrawn(sc, Reversed(segs), 0);
      |r.layers| == |sc.layers| + |segs| &&
      r.layers[|r.layers| - 1] == Layer(SegmentLayerId(segs[0]), SegmentLayerId(segs[0]), Line(HighlightColour)) &&
      forall k :: 1 <= k < |segs| ==>
        r.layers[|r.layers| - 1 - k] == Layer(SegmentLayerId(segs[k]), SegmentLayerId(segs[k]), Line(SegmentColour))
  {
    var n, rs := |segs|, Reversed(segs);
    FreshSegmentsReversed(sc, segs);
    SegmentsDrawnOnTop(sc, rs);
    var ls := SegmentsDrawn(sc, rs, 0).layers;
    assert ls == sc.layers + seq(n, k requires 0 <= k < n => SegmentLayer(rs, k));
    assert ls[|ls| - 1] == SegmentLayer(rs, n - 1);
    assert rs[n - 1] == segs[0];
    forall k | 1 <= k < n
      ensures ls[|ls| - 1 - k] == Layer(SegmentLayerId(segs[k]), SegmentLayerId(segs[k]), Line(SegmentColour))
    {
      assert ls[|ls| - 1 - k] == SegmentLayer(rs, n - 1 - k);
      assert rs[n - 1 - k] == segs[k];
    }
  }

  const SegmentLinePrefix := "segment-line-"

  /** The id `deleteSegments` removes for a segment. */
  function SegmentDeleteId(s: Segment): string {
    SegmentLinePrefix + NatToString(s.id)
  }

  /** What `deleteSegments` does to the scene: remove layer
      `'segment-line-' + segment.id` for every segment, in order. */
  function SegmentsDeleted(sc: Scene, segs: seq<Segment>): Scene
    decreases |segs|
  {
    if segs == [] then sc else SegmentsDeleted(RemoveLayer(sc, SegmentDeleteId(segs[0])), segs[1..])
  }

  /** `deleteSegments(segments, map)`. */
  method DeleteSegments(segments: seq<Segment>, m: MapSurface)
    modifies m
    ensures m.State() == SegmentsDeleted(old(m.State()), segments)
  {
    for i := 0 to |segments|
      invariant SegmentsDeleted(m.State(), segments[i..]) == SegmentsDeleted(old(m.State()), segments)
    {
      assert segments[i..][1..] == segments[i + 1..];
      var id := SegmentLinePrefix + NatToString(segments[i].id);
      m.RemoveLayer(id);
    }
  }

  /** `deleteSegments` never removes a layer whose id is a plain decimal
      number, and it touches neither sources nor handlers. */
  lemma {:induction false} SegmentsDeletedKeepsDecimalIds(sc: Scene, segs: seq<Segment>)
    ensures forall l :: l in sc.layers && AllDigits(l.id) ==> l in SegmentsDeleted(sc, segs).layers
    ensures SegmentsDeleted(sc, segs).sources == sc.sources
    ensures SegmentsDeleted(sc, segs).handlers == sc.handlers
    decreases |segs|
  {
    if segs != [] {
      var id := SegmentDeleteId(segs[0]);
      assert id[0] == 's';
      var sc' := RemoveLayer(sc, id);
      forall l | l in sc.layers && AllDigits(l.id) ensures l in sc'.layers {
        if |l.id| > 0 {
          assert IsDigit(l.id[0]) && !IsDigit(id[0]);
        }
      }
      SegmentsDeletedKeepsDecimalIds(sc', segs[1..]);
    }
  }

  /** Teardown divergence: deleting the segments `addSegments` drew (the same,
      reversed array is passed to both) leaves every one of their layers, their
      sources and their click handlers in place. */
  lemma SegmentTeardownLeavesLayers(sc: Scene, segs: seq<Segment>)
    requires FreshSegments(sc, segs)
    ensures forall k :: 0 <= k < |segs| ==>
      SegmentLayer(segs, k) in SegmentsDeleted(SegmentsDrawn(sc, segs, 0), segs).layers &&
      SegmentLayerId(segs[k]) in SegmentsDeleted(SegmentsDrawn(sc, segs, 0), segs).sources
    ensures SegmentsDeleted(SegmentsDrawn(sc, segs, 0), segs).handlers == sc.handlers + SegmentIds(segs)
  {
    SegmentsDrawnOnTop(sc, segs);
    var drawn := SegmentsDrawn(sc, segs, 0);
    SegmentsDeletedKeepsDecimalIds(drawn, segs);
    forall k | 0 <= k < |segs|
      ensures SegmentLayer(segs, k) in drawn.layers && AllDigits(SegmentLayer(segs, k).id)
    {
      assert drawn.layers[|sc.layers| + k] == SegmentLayer(segs, k);
    }
  }

  /** The teardown `deleteSegments` evidently intends: remove the layer
      `${segment.id}` and then its inline source of the same id. */
  function SegmentsTornDown(sc: Scene, segs: seq<Segment>): Scene {
    TeardownAll(sc, IdsOf(SegmentEntries(segs)))
  }

  /** With that teardown, deleting what `addSegments` drew restores the layers
      and sources; only the click handlers stay registered. */
  lemma SegmentTeardownRestores(sc: Scene, segs: seq<Segment>)
    requires FreshSegments(sc, segs)
    ensures SegmentsTornDown(SegmentsDrawn(sc, segs, 0), segs) == sc.(handlers := sc.handlers + SegmentIds(segs))
  {
    var es := SegmentEntries(segs);
    FreshSegmentEntries(sc, segs);
    assert es[0..] == es;
    assert SegmentIds(segs)[0..] == SegmentIds(segs);
    SegmentsDrawnInstalls(sc, segs, 0);
    TeardownInstalled(sc, es, sc.handlers + SegmentIds(segs));
  }

  /** The corrected `deleteSegments`. */
  method DeleteSegmentsCorrected(segments: seq<Segment>, m: MapSurface)
    modifies m
    ensures m.State() == SegmentsTornDown(old(m.State()), segments)
  {
    ghost var ids := IdsOf(SegmentEntries(segments));
    for i := 0 to |segments|
      invariant TeardownAll(m.State(), ids[i..]) == SegmentsTornDown(old(m.State()), segments)
    {
      assert ids[i..][1..] == ids[i + 1..];
      var id := NatToString(segments[i].id);
      m.RemoveLayer(id);
      m.RemoveSource(id);
    }
  }

  // ======================= heatmap images =======================

  const ImageSourcePrefix := "overlay-image-source"
  const ImageLayerPrefix := "overlay-image-layer"

  function ImageEntry(h: Heatmap): Entry {
    Entry(Layer(ImageLayerPrefix + h.img, ImageSourcePrefix + h.img, Raster), ImageTile(h.img, h.tile))
  }

  function ImageEntries(hs: seq<Heatmap>): seq<Entry> {
    seq(|hs|, k requires 0 <= k < |hs| => ImageEntry(hs[k]))
  }

  /** One iteration of `addStravaHeatmaps`: the image source, then the raster
      layer drawing it. */
  function AddHeatmap(sc: Scene, h: Heatmap): Scene {
    var e := ImageEntry(h);
    AddLayer(AddSource(sc, e.layer.source, e.data), e.layer.id, Named(e.layer.source), Raster)
  }

  function HeatmapsAdded(sc: Scene, hs: seq<Heatmap>): Scene
    decreases |hs|
  {
    if hs == [] then sc else HeatmapsAdded(AddHeatmap(sc, hs[0]), hs[1..])
  }

  /** `addStravaHeatmaps(heatmaps, map)`. */
  method AddStravaHeatmaps(heatmaps: seq<Heatmap>, m: MapSurface)
    modifies m
    ensures m.State() == HeatmapsAdded(old(m.State()), heatmaps)
  {
    for i := 0 to |heatmaps|
      invariant HeatmapsAdded(m.State(), heatmaps[i..]) == HeatmapsAdded(old(m.State()), heatmaps)
    {
      assert heatmaps[i..][1..] == heatmaps[i + 1..];
      var heatmap := heatmaps[i];
      m.AddSource(ImageSourcePrefix + heatmap.img, ImageTile(heatmap.img, heatmap.tile));
      m.AddLayer(ImageLayerPrefix + heatmap.img, Named(ImageSourcePrefix + heatmap.img), Raster);
    }
  }

  /** What `deleteStravaHeatmap` does: for each heatmap, remove its layer and
      then its source. */
  function HeatmapsDeleted(sc: Scene, hs: seq<Heatmap>): Scene {
    TeardownAll(sc, IdsOf(ImageEntries(hs)))
  }

  /** `deleteStravaHeatmap(map, stravaHeatmaps)`. */
  method DeleteStravaHeatmap(m: MapSurface, heatmaps: seq<Heatmap>)
    modifies m
    ensures m.State() == HeatmapsDeleted(old(m.State()), heatmaps)
  {
    ghost var ids := IdsOf(ImageEntries(heatmaps));
    for i := 0 to |heatmaps|
      invariant TeardownAll(m.State(), ids[i..]) == HeatmapsDeleted(old(m.State()), heatmaps)
    {
      assert ids[i..][1..] == ids[i + 1..];
      var heatmap := heatmaps[i];
      m.RemoveLayer(ImageLayerPrefix + heatmap.img);
      m.RemoveSource(ImageSourcePrefix + heatmap.img);
    }
  }

  /** The heatmaps can be added to `sc` without a refusal. */
  predicate FreshHeatmaps(sc: Scene, hs: seq<Heatmap>) {
    WellFormed(sc) &&
    (forall k :: 0 <= k < |hs| ==> ImageLayerPrefix + hs[k].img !in LayerIds(sc.layers) && ImageSourcePrefix + hs[k].img !in sc.sources) &&
    (forall j, k :: 0 <= j < k < |hs| ==> hs[j].img != hs[k].img)
  }

  lemma FreshImageEntries(sc: Scene, hs: seq<Heatmap>)
    requires FreshHeatmaps(sc, hs)
    ensures FreshEntries(sc, ImageEntries(hs))
  {
    var es := ImageEntries(hs);
    forall j, k | 0 <= j < k < |es|
      ensures es[j].layer.id != es[k].layer.id && es[j].layer.source != es[k].layer.source
    {
      if es[j].layer.id == es[k].layer.id {
        DropPrefix(ImageLayerPrefix, hs[j].img, hs[k].img);
      }
      if es[j].layer.source == es[k].layer.source {
        DropPrefix(ImageSourcePrefix, hs[j].img, hs[k].img);
      }
    }
  }

  lemma {:induction false} HeatmapsAddedInstalls(sc: Scene, hs: seq<Heatmap>)
    requires FreshEntries(sc, ImageEntries(hs))
    ensures HeatmapsAdded(sc, hs) == Installed(sc, ImageEntries(hs))
    decreases |hs|
  {
    var es := ImageEntries(hs);
    if hs == [] {
      assert LayersOf(es) == [];
    } else {
      InstalledOne(sc, es[0]);
      var sc' := AddHeatmap(sc, hs[0]);
      assert sc' == Installed(sc, [es[0]]);
      assert sc'.(handlers := sc.handlers) == sc';
      FreshAfterFirst(sc, es, sc.handlers);
      assert es[1..] == ImageEntries(hs[1..]);
      HeatmapsAddedInstalls(sc', hs[1..]);
      InstalledCons(sc, es, sc.handlers);
    }
  }

  /** `addStravaHeatmaps` on fresh ids puts one raster layer per heatmap on top,
      in order, each drawing from its own image source; `deleteStravaHeatmap`
      over the same list then restores the scene exactly. */
  lemma HeatmapTeardownRestores(sc: Scene, hs: seq<Heatmap>)
    requires FreshHeatmaps(sc, hs)
    ensures HeatmapsAdded(sc, hs).layers == sc.layers + seq(|hs|, k requires 0 <= k < |hs| =>
      Layer(ImageLayerPrefix + hs[k].img, ImageSourcePrefix + hs[k].img, Raster))
    ensures forall k :: 0 <= k < |hs| ==> ImageSourcePrefix + hs[k].img in HeatmapsAdded(sc, hs).sources
    ensures HeatmapsDeleted(HeatmapsAdded(sc, hs), hs) == sc
  {
    var es := ImageEntries(hs);
    FreshImageEntries(sc, hs);
    HeatmapsAddedInstalls(sc, hs);
    assert LayersOf(es) == seq(|hs|, k requires 0 <= k < |hs| => Layer(ImageLayerPrefix + hs[k].img, ImageSourcePrefix + hs[k].img, Raster));
    PutSourcesKeys(sc.sources, es);
    forall k | 0 <= k < |hs| ensures ImageSourcePrefix + hs[k].img in SourcesOf(es) {
      assert es[k] in es;
    }
    TeardownInstalled(sc, es, sc.handlers);
    assert Installed(sc, es).(handlers := sc.handlers) == Installed(sc, es);
    assert sc.(handlers := sc.handlers) == sc;
  }

  /** For the heatmaps `getStravaHeatmaps` resolves, adding and deleting them
      restores the scene whenever none of their ids is already on the map. */
  lemma ViewportHeatmapsRoundTrip(sc: Scene, z: int, view: int -> Corners, s: Sport)
    requires WellFormed(sc)
    requires forall h :: h in StravaHeatmaps(z, view, s) ==>
      ImageLayerPrefix + h.img !in LayerIds(sc.layers) && ImageSourcePrefix + h.img !in sc.sources
    ensures HeatmapsDeleted(HeatmapsAdded(sc, StravaHeatmaps(z, view, s)), StravaHeatmaps(z, view, s)) == sc
  {
    var hs := StravaHeatmaps(z, view, s);
    StravaHeatmapImagesDistinct(z, view, s);
    assert forall k :: 0 <= k < |hs| ==> hs[k] in hs;
    HeatmapTeardownRestores(sc, hs);
  }

  // ======================= trail views =======================

  const PointLayerId := "point-layer"
  const HeatmapLayerId := "heatmap-layer"

  function TrailviewEntries(fs: seq<TrailFeature>): seq<Entry> {
    [Entry(Layer(PointLayerId, PointLayerId, Circle), TrailPoints(fs)),
     Entry(Layer(HeatmapLayerId, HeatmapLayerId, HeatDensity), TrailPoints(fs))]
  }

  /** What `addKomootTrailview` does: two layers with inline sources holding
      the features, then a click handler on the point layer. */
  function TrailviewAdded(sc: Scene, fs: seq<TrailFeature>): Scene {
    var pts := AddLayer(sc, PointLayerId, Inline(TrailPoints(fs)), Circle);
    On(AddLayer(pts, HeatmapLayerId, Inline(TrailPoints(fs)), HeatDensity), PointLayerId)
  }

  /** `addKomootTrailview(trailviews, map)`. */
  method AddKomootTrailview(trailviews: seq<TrailFeature>, m: MapSurface)
    modifies m
    ensures m.State() == TrailviewAdded(old(m.State()), trailviews)
  {
    m.AddLayer(PointLayerId, Inline(TrailPoints(trailviews)), Circle);
    m.AddLayer(HeatmapLayerId, Inline(TrailPoints(trailviews)), HeatDensity);
    m.On(PointLayerId);
  }

  /** `deleteTrailViews(map)`: the point layer, then the source of the same id. */
  method DeleteTrailViews(m: MapSurface)
    modifies m
    ensures m.State() == Teardown(old(m.State()), PointLayerId, PointLayerId)
  {
    var id := PointLayerId;
    m.RemoveLayer(id);
    m.RemoveSource(id);
  }

  /** `deleteHeatMap(map)`: the density layer, then the source of the same id. */
  method DeleteHeatMap(m: MapSurface)
    modifies m
    ensures m.State() == Teardown(old(m.State()), HeatmapLayerId, HeatmapLayerId)
  {
    var id := HeatmapLayerId;
    m.RemoveLayer(id);
    m.RemoveSource(id);
  }

  /** On a map without `point-layer` and `heatmap-layer`, `addKomootTrailview`
      adds exactly those two layers on top, each with a same-named source
      holding the features; the cleanup `deleteTrailViews` then `deleteHeatMap`
      restores layers and sources, but the click handler on `point-layer`
      stays registered. */
  lemma TrailviewTeardownRestores(sc: Scene, fs: seq<TrailFeature>)
    requires WellFormed(sc)
    requires PointLayerId !in LayerIds(sc.layers) && PointLayerId !in sc.sources
    requires HeatmapLayerId !in LayerIds(sc.layers) && HeatmapLayerId !in sc.sources
    ensures TrailviewAdded(sc, fs).layers == sc.layers + [Layer(PointLayerId, PointLayerId, Circle), Layer(HeatmapLayerId, HeatmapLayerId, HeatDensity)]
    ensures TrailviewAdded(sc, fs).sources == sc.sources[PointLayerId := TrailPoints(fs)][HeatmapLayerId := TrailPoints(fs)]
    ensures Teardown(Teardown(TrailviewAdded(sc, fs), PointLayerId, PointLayerId), HeatmapLayerId, HeatmapLayerId)
      == sc.(handlers := sc.handlers + [PointLayerId])
  {
    var es := TrailviewEntries(fs);
    var h := sc.handlers + [PointLayerId];
    assert FreshEntries(sc, es);
    InstalledOne(sc, es[0]);
    var pts := AddLayer(sc, PointLayerId, Inline(TrailPoints(fs)), Circle);
    assert pts == Installed(sc, [es[0]]);
    assert LayerIds(pts.layers) == LayerIds(sc.layers) + {PointLayerId};
    InstalledOne(pts, es[1]);
    assert [es[1]] == es[1..];
    InstalledCons(sc, es, sc.handlers);
    assert TrailviewAdded(sc, fs) == Installed(sc, es).(handlers := h);
    assert LayersOf(es) == [es[0].layer, es[1].layer];
    TeardownInstalled(sc, es, h);
    var ids := IdsOf(es);
    assert ids == [(PointLayerId, PointLayerId), (HeatmapLayerId, HeatmapLayerId)];
    assert ids[1..][1..] == [];
    var y := Teardown(TrailviewAdded(sc, fs), PointLayerId, PointLayerId);
    assert TeardownAll(Installed(sc, es).(handlers := h), ids) == TeardownAll(y, ids[1..]);
    assert ids[1..][0] == (HeatmapLayerId, HeatmapLayerId);
    assert TeardownAll(y, ids[1..]) == TeardownAll(Teardown(y, HeatmapLayerId, HeatmapLayerId), ids[1..][1..]);
    assert TrailviewAdded(sc, fs).layers == sc.layers + LayersOf(es);
    assert TrailviewAdded(sc, fs).sources == sc.sources[PointLayerId := TrailPoints(fs)][HeatmapLayerId := TrailPoints(fs)];
  }
}
