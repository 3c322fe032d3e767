/** The rendering surface as the overlay code sees it: an ordered stack of
    layers (the last one is drawn on top), the sources they draw from, and the
    layer ids that click handlers were registered on. The widget itself is a
    library; this module fixes the behaviour the model assumes of its calls
    `addSource`, `addLayer`, `removeLayer`, `removeSource` and `on`. */
module SceneModel {
  import opened Overlays

  /** What a source holds. */
  datatype SourceData =
    | SegmentLine(encodedPolyline: string)    // a segment's encoded polyline, standing for the GeoJSON line decoded from it
    | TrailPoints(features: seq<TrailFeature>) // a GeoJSON feature collection
    | ImageTile(url: string, tile: TileRequest) // a georeferenced image

  datatype Style = Line(colour: string) | Raster | Circle | HeatDensity

  datatype Layer = Layer(id: string, source: string, style: Style)

  /** The `source` of `addLayer`: an inline source object, which the widget adds
      under the layer's own id, or the id of a source added before. */
  datatype LayerSource = Inline(data: SourceData) | Named(sourceId: string)

  datatype Scene = Scene(layers: seq<Layer>, sources: map<string, SourceData>, handlers: seq<string>)

  function LayerIds(ls: seq<Layer>): set<string> {
    set l | l in ls :: l.id
  }

  predicate UniqueIds(ls: seq<Layer>) {
    forall i, j :: 0 <= i < j < |ls| ==> ls[i].id != ls[j].id
  }

  /** One layer per id, and every layer draws from a source that exists. */
  predicate WellFormed(sc: Scene) {
    UniqueIds(sc.layers) && forall l :: l in sc.layers ==> l.source in sc.sources
  }

  predicate InUse(sc: Scene, sourceId: string) {
    exists l :: l in sc.layers && l.source == sourceId
  }

  /** `addSource`: refused (no change) when the id is taken. */
  function AddSource(sc: Scene, id: string, data: SourceData): (r: Scene)
    ensures WellFormed(sc) ==> WellFormed(r)
    ensures id in r.sources && r.layers == sc.layers && r.handlers == sc.handlers
    ensures id !in sc.sources ==> r.sources == sc.sources[id := data]
    ensures id in sc.sources ==> r == sc
  {
    if id in sc.sources then sc else sc.(sources := sc.sources[id := data])
  }

  /** `addLayer`: appended on top; refused (no change) when the layer id is
      taken, when an inline source's id (the layer id) is taken, or when a named
      source does not exist. */
  function AddLayer(sc: Scene, id: string, src: LayerSource, style: Style): (r: Scene)
    ensures WellFormed(sc) ==> WellFormed(r)
    ensures r.handlers == sc.handlers
    ensures r != sc ==> LayerIds(r.layers) == LayerIds(sc.layers) + {id}
    ensures r != sc <==>
      id !in LayerIds(sc.layers) && (if src.Inline? then id !in sc.sources else src.sourceId in sc.sources)
    ensures r != sc ==> r.layers == sc.layers + [Layer(id, if src.Inline? then id else src.sourceId, style)]
    ensures r != sc && src.Inline? ==> r.sources == sc.sources[id := src.data]
    ensures src.Named? ==> r.sources == sc.sources
  {
    if id in LayerIds(sc.layers) then sc
    else
      match src
      case Inline(data) =>
        if id in sc.sources then sc
        else Scene(sc.layers + [Layer(id, id, style)], sc.sources[id := data], sc.handlers)
      case Named(sid) =>
        if sid !in sc.sources then sc
        else sc.(layers := sc.layers + [Layer(id, sid, style)])
  }

  /** The layer stack without the layer called `id`. */
  function Without(ls: seq<Layer>, id: string): (r: seq<Layer>)
    ensures forall l :: l in r <==> l in ls && l.id != id
  {
    if ls == [] then [] else (if ls[0].id == id then [] else [ls[0]]) + Without(ls[1..], id)
  }

  lemma {:induction false} WithoutUnique(ls: seq<Layer>, id: string)
    requires UniqueIds(ls)
    ensures UniqueIds(Without(ls, id))
  {
    if ls != [] {
      WithoutUnique(ls[1..], id);
      var rest := Without(ls[1..], id);
      if ls[0].id != id {
        forall l | l in rest ensures l.id != ls[0].id {
          var k :| 0 <= k < |ls[1..]| && ls[1..][k] == l;
          assert ls[k + 1] == l;
        }
        assert Without(ls, id) == [ls[0]] + rest;
      } else {
        assert Without(ls, id) == rest;
      }
    }
  }

  lemma {:induction false} WithoutAbsent(ls: seq<Layer>, id: string)
    requires id !in LayerIds(ls)
    ensures Without(ls, id) == ls
  {
    if ls != [] {
      assert ls[0] in ls;
      WithoutAbsent(ls[1..], id);
      assert ls == [ls[0]] + ls[1..];
    }
  }

  lemma {:induction false} WithoutAppend(a: seq<Layer>, b: seq<Layer>, id: string)
    ensures Without(a + b, id) == Without(a, id) + Without(b, id)
  {
    if a == [] {
      assert a + b == b;
    } else {
      assert (a + b)[0] == a[0];
      assert (a + b)[1..] == a[1..] + b;
      WithoutAppend(a[1..], b, id);
    }
  }

  /** `removeLayer`: the layer goes, its source stays; no change when absent. */
  function RemoveLayer(sc: Scene, id: string): (r: Scene)
    ensures WellFormed(sc) ==> WellFormed(r)
    ensures id !in LayerIds(r.layers)
    ensures r.sources == sc.sources && r.handlers == sc.handlers
    ensures forall l :: l in r.layers <==> l in sc.layers && l.id != id
    ensures id !in LayerIds(sc.layers) ==> r == sc
  {
    var r := sc.(layers := Without(sc.layers, id));
    assert WellFormed(sc) ==> WellFormed(r) by {
      if WellFormed(sc) {
        WithoutUnique(sc.layers, id);
      }
    }
    assert id !in LayerIds(sc.layers) ==> r == sc by {
      if id !in LayerIds(sc.layers) {
        WithoutAbsent(sc.layers, id);
      }
    }
    r
  }

  lemma UniqueTail(ls: seq<Layer>)
    requires UniqueIds(ls) && ls != []
    ensures UniqueIds(ls[1..])
    ensures ls[0].id !in LayerIds(ls[1..])
  {
    var t := ls[1..];
    forall i, j | 0 <= i < j < |t| ensures t[i].id != t[j].id {
      assert t[i] == ls[i + 1] && t[j] == ls[j + 1];
    }
    forall l | l in t ensures l.id != ls[0].id {
      var j :| 0 <= j < |t| && t[j] == l;
      assert ls[j + 1] == l;
    }
  }

  lemma WithoutCons(ls: seq<Layer>, id: string)
    requires ls != [] && ls[0].id != id
    ensures Without(ls, id) == [ls[0]] + Without(ls[1..], id)
  {
  }

  lemma SplitAtCons(ls: seq<Layer>, k: nat)
    requires 0 < k < |ls|
    ensures ls[..k] + ls[k + 1..] == [ls[0]] + (ls[1..][..k - 1] + ls[1..][k..])
  {
    assert ls[..k] == [ls[0]] + ls[1..][..k - 1];
    assert ls[k + 1..] == ls[1..][k..];
  }

  /** Removing a layer that is present takes out exactly that position of the
      stack: the layers below and above it keep their order. */
  lemma {:induction false} WithoutAt(ls: seq<Layer>, id: string, k: nat)
    requires UniqueIds(ls) && k < |ls| && ls[k].id == id
    ensures Without(ls, id) == ls[..k] + ls[k + 1..]
    decreases k
  {
    UniqueTail(ls);
    if k == 0 {
      WithoutAbsent(ls[1..], id);
      assert ls[..0] + ls[1..] == ls[1..];
    } else {
      assert ls[0].id != id by {
        assert ls[0].id != ls[k].id;
      }
      WithoutCons(ls, id);
      WithoutAt(ls[1..], id, k - 1);
      SplitAtCons(ls, k);
    }
  }

  /** `removeLayer` keeps the stacking order of the layers that stay, so the
      layer on top stays on top unless it is the one removed. */
  lemma RemoveLayerKeepsOrder(sc: Scene, id: string, k: nat)
    requires WellFormed(sc) && k < |sc.layers| && sc.layers[k].id == id
    ensures RemoveLayer(sc, id).layers == sc.layers[..k] + sc.layers[k + 1..]
  {
    WithoutAt(sc.layers, id, k);
  }

  /** `removeSource`: refused (no change) when absent or still drawn by a layer. */
  function RemoveSource(sc: Scene, id: string): (r: Scene)
    ensures WellFormed(sc) ==> WellFormed(r)
    ensures r.layers == sc.layers && r.handlers == sc.handlers
    ensures id in sc.sources && !InUse(sc, id) ==> r.sources == sc.sources - {id}
    ensures id !in sc.sources || InUse(sc, id) ==> r == sc
  {
    if id !in sc.sources || InUse(sc, id) then sc else sc.(sources := sc.sources - {id})
  }

  /** `on('click', layerId, handler)`: handlers are kept per layer id. */
  function On(sc: Scene, layerId: string): (r: Scene)
    ensures r.layers == sc.layers && r.sources == sc.sources
    ensures r.handlers == sc.handlers + [layerId]
  {
    sc.(handlers := sc.handlers + [layerId])
  }

  /** The step of every delete function: remove a layer, then a source. */
  function Teardown(sc: Scene, layerId: string, sourceId: string): Scene {
    RemoveSource(RemoveLayer(sc, layerId), sourceId)
  }

  function TeardownAll(sc: Scene, ids: seq<(string, string)>): Scene
    decreases |ids|
  {
    if ids == [] then sc else TeardownAll(Teardown(sc, ids[0].0, ids[0].1), ids[1..])
  }

  // ----- A batch of layers, each with its own source -----

  datatype Entry = Entry(layer: Layer, data: SourceData)

  function LayersOf(es: seq<Entry>): seq<Layer> {
    seq(|es|, k requires 0 <= k < |es| => es[k].layer)
  }

  function SourcesOf(es: seq<Entry>): set<string> {
    set e | e in es :: e.layer.source
  }

  function IdsOf(es: seq<Entry>): seq<(string, string)> {
    seq(|es|, k requires 0 <= k < |es| => (es[k].layer.id, es[k].layer.source))
  }

  function PutSources(m: map<string, SourceData>, es: seq<Entry>): map<string, SourceData>
    decreases |es|
  {
    if es == [] then m else PutSources(m[es[0].layer.source := es[0].data], es[1..])
  }

  /** The scene after the batch has been added on top of `sc`. */
  function Installed(sc: Scene, es: seq<Entry>): Scene {
    sc.(layers := sc.layers + LayersOf(es), sources := PutSources(sc.sources, es))
  }

  /** The batch can be added to `sc` without a refusal: its layer ids and
      source ids are new and distinct. */
  predicate FreshEntries(sc: Scene, es: seq<Entry>) {
    WellFormed(sc) &&
    (forall k :: 0 <= k < |es| ==> es[k].layer.id !in LayerIds(sc.layers) && es[k].layer.source !in sc.sources) &&
    (forall j, k :: 0 <= j < k < |es| ==> es[j].layer.id != es[k].layer.id && es[j].layer.source != es[k].layer.source)
  }

  lemma {:induction false} PutSourcesKeys(m: map<string, SourceData>, es: seq<Entry>)
    ensures PutSources(m, es).Keys == m.Keys + SourcesOf(es)
    decreases |es|
  {
    if es != [] {
      PutSourcesKeys(m[es[0].layer.source := es[0].data], es[1..]);
      assert es == [es[0]] + es[1..];
      assert SourcesOf(es) == {es[0].layer.source} + SourcesOf(es[1..]);
    }
  }

  lemma {:induction false} PutSourcesRemove(m: map<string, SourceData>, es: seq<Entry>, k: string)
    requires k !in SourcesOf(es)
    ensures PutSources(m, es) - {k} == PutSources(m - {k}, es)
    decreases |es|
  {
    if es != [] {
      var e := es[0];
      assert e in es;
      assert SourcesOf(es[1..]) <= SourcesOf(es);
      PutSourcesRemove(m[e.layer.source := e.data], es[1..], k);
      assert m[e.layer.source := e.data] - {k} == (m - {k})[e.layer.source := e.data];
    }
  }

  lemma IdAbsent(ls: seq<Layer>, id: string)
    requires forall k :: 0 <= k < |ls| ==> ls[k].id != id
    ensures id !in LayerIds(ls)
  {
  }

  lemma RemoveFirstLayer(sc: Scene, es: seq<Entry>)
    requires FreshEntries(sc, es) && es != []
    ensures Without(sc.layers + LayersOf(es), es[0].layer.id) == sc.layers + LayersOf(es[1..])
  {
    var e, t := es[0], es[1..];
    var id := e.layer.id;
    var rest := LayersOf(t);
    assert id !in LayerIds(sc.layers);
    assert LayersOf(es) == [e.layer] + rest;
    assert sc.layers + LayersOf(es) == (sc.layers + [e.layer]) + rest;
    WithoutAppend(sc.layers + [e.layer], rest, id);
    WithoutAppend(sc.layers, [e.layer], id);
    WithoutAbsent(sc.layers, id);
    assert Without([e.layer], id) == [];
    assert Without(sc.layers + [e.layer], id) == sc.layers;
    NoLaterId(es);
    WithoutAbsent(rest, id);
  }

  lemma NoLaterId(es: seq<Entry>)
    requires es != []
    requires forall j, k :: 0 <= j < k < |es| ==> es[j].layer.id != es[k].layer.id
    ensures es[0].layer.id !in LayerIds(LayersOf(es[1..]))
  {
    var rest := LayersOf(es[1..]);
    assert forall k :: 0 <= k < |rest| ==> rest[k] == es[k + 1].layer;
    IdAbsent(rest, es[0].layer.id);
  }

  lemma RemoveFirstSource(sc: Scene, es: seq<Entry>)
    requires FreshEntries(sc, es) && es != []
    ensures es[0].layer.source in PutSources(sc.sources, es)
    ensures forall l :: l in sc.layers + LayersOf(es[1..]) ==> l.source != es[0].layer.source
    ensures PutSources(sc.sources, es) - {es[0].layer.source} == PutSources(sc.sources, es[1..])
  {
    var e, t := es[0], es[1..];
    var src := e.layer.source;
    assert src !in SourcesOf(t) by {
      forall f | f in t ensures f.layer.source != src {
        var k :| 0 <= k < |t| && t[k] == f;
        assert es[k + 1] == f;
      }
    }
    PutSourcesKeys(sc.sources[src := e.data], t);
    forall l | l in sc.layers + LayersOf(t) ensures l.source != src {
      if l in sc.layers {
        assert l.source in sc.sources;
      } else {
        var k :| 0 <= k < |LayersOf(t)| && LayersOf(t)[k] == l;
        assert t[k] in t;
      }
    }
    PutSourcesRemove(sc.sources[src := e.data], t, src);
    assert sc.sources[src := e.data] - {src} == sc.sources;
  }

  /** Tearing down the first entry of an installed fresh batch leaves the rest
      installed. */
  lemma TeardownFirst(sc: Scene, es: seq<Entry>, handlers: seq<string>)
    requires FreshEntries(sc, es) && es != []
    ensures Teardown(Installed(sc, es).(handlers := handlers), es[0].layer.id, es[0].layer.source)
      == Installed(sc, es[1..]).(handlers := handlers)
    ensures FreshEntries(sc, es[1..])
  {
    var x := Installed(sc, es).(handlers := handlers);
    var e, t := es[0], es[1..];
    RemoveFirstLayer(sc, es);
    RemoveFirstSource(sc, es);
    var y := RemoveLayer(x, e.layer.id);
    assert y.layers == sc.layers + LayersOf(t);
    assert !InUse(y, e.layer.source);
  }

  /** Tearing a freshly added batch down, layer before source and entry by
      entry in the order it was added, gives back the scene it was added to
      (apart from click handlers, which teardown does not touch). */
  lemma {:induction false} TeardownInstalled(sc: Scene, es: seq<Entry>, handlers: seq<string>)
    requires FreshEntries(sc, es)
    ensures TeardownAll(Installed(sc, es).(handlers := handlers), IdsOf(es)) == sc.(handlers := handlers)
    decreases |es|
  {
    if es == [] {
      assert LayersOf(es) == [];
    } else {
      TeardownFirst(sc, es, handlers);
      assert IdsOf(es)[0] == (es[0].layer.id, es[0].layer.source);
      assert IdsOf(es)[1..] == IdsOf(es[1..]);
      TeardownInstalled(sc, es[1..], handlers);
    }
  }

  lemma InstalledOne(sc: Scene, e: Entry)
    ensures Installed(sc, [e]) == sc.(layers := sc.layers + [e.layer], sources := sc.sources[e.layer.source := e.data])
  {
    assert LayersOf([e]) == [e.layer];
    assert [e][1..] == [];
    assert PutSources(sc.sources, [e]) == PutSources(sc.sources[e.layer.source := e.data], []);
  }

  lemma InstalledCons(sc: Scene, es: seq<Entry>, handlers: seq<string>)
    requires es != []
    ensures Installed(Installed(sc, [es[0]]).(handlers := handlers), es[1..]) == Installed(sc, es).(handlers := handlers)
  {
    InstalledOne(sc, es[0]);
    assert LayersOf(es) == [es[0].layer] + LayersOf(es[1..]);
  }

  /** Adding a fresh batch keeps the scene well formed. */
  lemma {:induction false} InstalledWellFormed(sc: Scene, es: seq<Entry>)
    requires FreshEntries(sc, es)
    ensures WellFormed(Installed(sc, es))
    decreases |es|
  {
    if es == [] {
      assert LayersOf(es) == [];
    } else {
      var e := es[0];
      InstalledOne(sc, e);
      var sc1 := Installed(sc, [e]);
      assert UniqueIds(sc1.layers) by {
        forall i, j | 0 <= i < j < |sc1.layers| ensures sc1.layers[i].id != sc1.layers[j].id {
          if j == |sc.layers| {
            assert sc1.layers[i] in sc.layers;
          } else {
            assert sc1.layers[i] == sc.layers[i] && sc1.layers[j] == sc.layers[j];
          }
        }
      }
      assert sc1.(handlers := sc.handlers) == sc1;
      FreshAfterFirst(sc, es, sc.handlers);
      InstalledWellFormed(sc1, es[1..]);
      InstalledCons(sc, es, sc.handlers);
    }
  }

  /** Adding the first entry and then the rest, whatever the handlers in
      between, adds the whole batch. */
  lemma InstalledStep(sc: Scene, es: seq<Entry>, between: seq<string>, handlers: seq<string>)
    requires es != []
    ensures Installed(Installed(sc, [es[0]]).(handlers := between), es[1..]).(handlers := handlers) == Installed(sc, es).(handlers := handlers)
  {
    InstalledCons(sc, es, handlers);
  }

  /** After the first entry of a fresh batch is added, the rest is still fresh. */
  lemma FreshAfterFirst(sc: Scene, es: seq<Entry>, handlers: seq<string>)
    requires FreshEntries(sc, es) && es != []
    requires WellFormed(Installed(sc, [es[0]]))
    ensures FreshEntries(Installed(sc, [es[0]]).(handlers := handlers), es[1..])
  {
    InstalledOne(sc, es[0]);
    var sc' := Installed(sc, [es[0]]).(handlers := handlers);
    forall k | 0 <= k < |es[1..]|
      ensures es[1..][k].layer.id !in LayerIds(sc'.layers) && es[1..][k].layer.source !in sc'.sources
    {
      assert es[1..][k] == es[k + 1];
      assert LayerIds(sc'.layers) == LayerIds(sc.layers) + {es[0].layer.id};
    }
    assert WellFormed(sc');
    forall j, k | 0 <= j < k < |es[1..]|
      ensures es[1..][j].layer.id != es[1..][k].layer.id && es[1..][j].layer.source != es[1..][k].layer.source
    {
      assert es[1..][j] == es[j + 1] && es[1..][k] == es[k + 1];
    }
  }
}
