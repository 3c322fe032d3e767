/** The overlay fetchers of App.tsx without their network calls: the per-overlay
    zoom clamps, the tile URLs, the feature loop of `fetchOneTile`, the
    fan-out of `getKomootHighlights` and the heatmap descriptors of
    `getStravaHeatmaps` / `fetchOneTileHeatmap`. */
module Overlays {
  import opened Decimal
  import opened Tiles

  datatype Option<T> = None | Some(value: T)

  /** The two values of the selector's `sport` type. */
  datatype Sport = Running | Riding

  const TrailMinZoom: int := 7
  const TrailZoomFloor: int := 9
  const HeatmapMaxZoom: int := 10

  /** `getKomootHighlights`: below zoom 7 nothing is resolved; otherwise tiles
      are resolved at `max(z, 9)`. */
  function TrailZoom(z: int): (r: Option<int>)
    ensures r.None? <==> z < TrailMinZoom
    ensures r.Some? ==> TrailZoomFloor <= r.value && z <= r.value
    ensures r.Some? ==> r.value == z || r.value == TrailZoomFloor
  {
    if z < TrailMinZoom then None
    else if z < TrailZoomFloor then Some(TrailZoomFloor)
    else Some(z)
  }

  /** `getStravaHeatmaps`: the zoom is capped at 10. */
  function HeatmapZoom(z: int): (r: int)
    ensures r <= HeatmapMaxZoom && r <= z
    ensures r == z || r == HeatmapMaxZoom
  {
    if z < HeatmapMaxZoom then z else HeatmapMaxZoom
  }

  /** One tile to fetch: `(zoom, xTile, yTile)`. */
  datatype TileRequest = TileRequest(zoom: int, x: int, y: int)

  /** `${zoom}/${xTile}/${yTile}` followed by `ext`. */
  function TilePath(zoom: int, x: int, y: int, ext: string): string {
    IntToString(zoom) + ("/" + (IntToString(x) + ("/" + (IntToString(y) + ext))))
  }

  /** A tile path followed by an extension that does not start like a number
      determines the tile. */
  lemma TilePathInjective(z1: int, x1: int, y1: int, z2: int, x2: int, y2: int, ext: string)
    requires |ext| > 0 && !IsNumeral(ext[0])
    requires TilePath(z1, x1, y1, ext) == TilePath(z2, x2, y2, ext)
    ensures z1 == z2 && x1 == x2 && y1 == y2
  {
    var restX1 := IntToString(x1) + ("/" + (IntToString(y1) + ext));
    var restX2 := IntToString(x2) + ("/" + (IntToString(y2) + ext));
    NumeralPrefix(IntToString(z1), "/" + restX1, IntToString(z2), "/" + restX2);
    IntToStringInjective(z1, z2);
    assert restX1 == ("/" + restX1)[1..];
    assert restX2 == ("/" + restX2)[1..];
    var restY1, restY2 := IntToString(y1) + ext, IntToString(y2) + ext;
    NumeralPrefix(IntToString(x1), "/" + restY1, IntToString(x2), "/" + restY2);
    IntToStringInjective(x1, x2);
    assert restY1 == ("/" + restY1)[1..];
    assert restY2 == ("/" + restY2)[1..];
    NumeralPrefix(IntToString(y1), ext, IntToString(y2), ext);
    IntToStringInjective(y1, y2);
  }

  const TrailTileBase := "https://trailview-tiles.maps.komoot.net/tiles/v2/"
  const TrailTileExt := ".vector.pbf"

  /** The URL `fetchOneTile` requests. */
  function TrailTileUrl(r: TileRequest): (u: string)
    ensures |u| > |TrailTileBase| && u[..|TrailTileBase|] == TrailTileBase
  {
    TrailTileBase + TilePath(r.zoom, r.x, r.y, TrailTileExt)
  }

  lemma TrailTileUrlInjective(r1: TileRequest, r2: TileRequest)
    requires TrailTileUrl(r1) == TrailTileUrl(r2)
    ensures r1 == r2
  {
    var p1, p2 := TilePath(r1.zoom, r1.x, r1.y, TrailTileExt), TilePath(r2.zoom, r2.x, r2.y, TrailTileExt);
    assert p1 == TrailTileUrl(r1)[|TrailTileBase|..];
    assert p2 == TrailTileUrl(r2)[|TrailTileBase|..];
    TilePathInjective(r1.zoom, r1.x, r1.y, r2.zoom, r2.x, r2.y, TrailTileExt);
  }

  // ----- fetchOneTile: the features of one decoded vector tile -----

  /** A feature as the vector-tile library decodes it: tile-local geometry and
      the `trailview_id` property. */
  datatype RawFeature = RawFeature(geometry: seq<(int, int)>, trailviewId: string)

  datatype VectorTileLayer = VectorTileLayer(features: seq<RawFeature>)

  /** A decoded tile: its layers by name. */
  datatype VectorTile = VectorTile(layers: map<string, VectorTileLayer>)

  const TrailLayerName := "komoot_trailview"

  /** `feature.toGeoJSON(xTile, yTile, zoom)`: the feature placed in the tile it
      came from (the projection to longitude/latitude is the library's). */
  datatype TrailFeature = TrailFeature(raw: RawFeature, tile: TileRequest)

  /** The features `fetchOneTile` resolves for one decoded tile: none when the
      `komoot_trailview` layer is absent, otherwise one per feature index in
      index order. */
  function TileFeatures(tile: VectorTile, r: TileRequest): (fs: seq<TrailFeature>)
    ensures TrailLayerName !in tile.layers ==> fs == []
    ensures TrailLayerName in tile.layers ==>
      |fs| == |tile.layers[TrailLayerName].features| &&
      forall i :: 0 <= i < |fs| ==> fs[i].raw == tile.layers[TrailLayerName].features[i]
    ensures forall f :: f in fs ==> f.tile == r
  {
    if TrailLayerName !in tile.layers then []
    else
      var layer := tile.layers[TrailLayerName];
      seq(|layer.features|, i requires 0 <= i < |layer.features| => TrailFeature(layer.features[i], r))
  }

  /** The `for` loop of `fetchOneTile` filling `featuresLatLng`. */
  method FetchOneTileFeatures(tile: VectorTile, r: TileRequest) returns (featuresLatLng: seq<TrailFeature>)
    ensures featuresLatLng == TileFeatures(tile, r)
  {
    featuresLatLng := [];
    if TrailLayerName in tile.layers {
      var tileLayer := tile.layers[TrailLayerName];
      for i := 0 to |tileLayer.features|
        invariant featuresLatLng == TileFeatures(tile, r)[..i]
      {
        featuresLatLng := featuresLatLng + [TrailFeature(tileLayer.features[i], r)];
      }
    }
  }

  // ----- getKomootHighlights -----

  /** The tile requests `getKomootHighlights` issues; `view(zoom)` gives the
      viewport's corner tiles at `zoom`. */
  function TrailTileRequests(z: int, view: int -> Corners): (reqs: seq<TileRequest>)
    ensures z < TrailMinZoom ==> reqs == []
    ensures z >= TrailMinZoom ==> |reqs| == |Grid(view(TrailZoom(z).value))|
    ensures z >= TrailMinZoom ==> forall k :: 0 <= k < |reqs| ==>
      reqs[k] == TileRequest(TrailZoom(z).value, Grid(view(TrailZoom(z).value))[k].x, Grid(view(TrailZoom(z).value))[k].y)
  {
    match TrailZoom(z)
    case None => []
    case Some(zoom) =>
      var g := Grid(view(zoom));
      seq(|g|, k requires 0 <= k < |g| => TileRequest(zoom, g[k].x, g[k].y))
  }

  /** From zoom 7 on, every tile of the viewport at the clamped zoom is
      requested, exactly once, and nothing else is. */
  lemma TrailTileRequestsCoverViewport(z: int, view: int -> Corners)
    requires z >= TrailMinZoom
    ensures forall r :: r in TrailTileRequests(z, view) <==>
      r.zoom == TrailZoom(z).value && InBox(Tile(r.x, r.y), view(TrailZoom(z).value))
    ensures forall i, j :: 0 <= i < j < |TrailTileRequests(z, view)| ==>
      TrailTileRequests(z, view)[i] != TrailTileRequests(z, view)[j]
  {
    var zoom := TrailZoom(z).value;
    var g, reqs := Grid(view(zoom)), TrailTileRequests(z, view);
    GridContents(view(zoom));
    GridDistinct(view(zoom));
    forall r: TileRequest | r.zoom == zoom && InBox(Tile(r.x, r.y), view(zoom))
      ensures r in reqs
    {
      var k :| 0 <= k < |g| && g[k] == Tile(r.x, r.y);
      assert reqs[k] == r;
    }
    forall i, j | 0 <= i < j < |reqs|
      ensures reqs[i] != reqs[j]
    {
      assert g[i] != g[j];
    }
  }

  /** The features of the resolved tiles, concatenated in request order; `None`
      as soon as one tile fails (`Promise.all` rejects the whole batch). `fetch`
      stands for the network request and the vector-tile decoding. */
  function CollectTiles(reqs: seq<TileRequest>, fetch: TileRequest -> Option<VectorTile>): (r: Option<seq<TrailFeature>>)
    ensures reqs == [] ==> r == Some([])
    ensures r.Some? ==> forall f :: f in r.value ==> exists k :: 0 <= k < |reqs| && f.tile == reqs[k]
    decreases |reqs|
  {
    if reqs == [] then Some([])
    else
      match fetch(reqs[0])
      case None => None
      case Some(tile) =>
        match CollectTiles(reqs[1..], fetch)
        case None => None
        case Some(rest) => Some(TileFeatures(tile, reqs[0]) + rest)
  }

  lemma ConsFeatures(reqs: seq<TileRequest>, fetch: TileRequest -> Option<VectorTile>, rest: seq<TrailFeature>)
    requires reqs != [] && forall k :: 0 <= k < |reqs| ==> fetch(reqs[k]).Some?
    requires forall f :: f in rest <==>
      exists k :: 0 <= k < |reqs[1..]| && f in TileFeatures(fetch(reqs[1..][k]).value, reqs[1..][k])
    ensures forall f :: f in TileFeatures(fetch(reqs[0]).value, reqs[0]) + rest <==>
      exists k :: 0 <= k < |reqs| && f in TileFeatures(fetch(reqs[k]).value, reqs[k])
  {
    var tail := reqs[1..];
    forall f | f in rest
      ensures exists k :: 0 <= k < |reqs| && f in TileFeatures(fetch(reqs[k]).value, reqs[k])
    {
      var k :| 0 <= k < |tail| && f in TileFeatures(fetch(tail[k]).value, tail[k]);
      assert reqs[k + 1] == tail[k];
    }
    forall f, k | 0 < k < |reqs| && f in TileFeatures(fetch(reqs[k]).value, reqs[k])
      ensures f in rest
    {
      assert tail[k - 1] == reqs[k];
    }
  }

  /** The batch fails exactly when one of its tiles fails; when it succeeds it
      holds every feature of every tile and only those. */
  lemma {:induction false} CollectTilesSound(reqs: seq<TileRequest>, fetch: TileRequest -> Option<VectorTile>)
    ensures CollectTiles(reqs, fetch).None? <==> exists k :: 0 <= k < |reqs| && fetch(reqs[k]).None?
    ensures CollectTiles(reqs, fetch).Some? ==>
      forall f :: f in CollectTiles(reqs, fetch).value <==>
        exists k :: 0 <= k < |reqs| && f in TileFeatures(fetch(reqs[k]).value, reqs[k])
  {
    if reqs != [] {
      CollectTilesSound(reqs[1..], fetch);
      var tail := reqs[1..];
      if fetch(reqs[0]).Some? && CollectTiles(tail, fetch).Some? {
        ConsFeatures(reqs, fetch, CollectTiles(tail, fetch).value);
      } else if fetch(reqs[0]).None? {
        assert 0 < |reqs|;
      } else {
        var k :| 0 <= k < |tail| && fetch(tail[k]).None?;
        assert reqs[k + 1] == tail[k];
      }
    }
  }

  /** `Array.prototype.flat` on an array of arrays: the inner arrays joined in
      order. */
  function Flatten<T>(ss: seq<seq<T>>): seq<T>
    decreases |ss|
  {
    if ss == [] then [] else ss[0] + Flatten(ss[1..])
  }

  /** When every tile resolves, the batch is `a.flat()` of the per-tile
      feature lists: each tile's features, tiles in request order. */
  lemma {:induction false} CollectTilesFlat(reqs: seq<TileRequest>, fetch: TileRequest -> Option<VectorTile>)
    requires forall k :: 0 <= k < |reqs| ==> fetch(reqs[k]).Some?
    ensures CollectTiles(reqs, fetch) ==
      Some(Flatten(seq(|reqs|, k requires 0 <= k < |reqs| => TileFeatures(fetch(reqs[k]).value, reqs[k]))))
    decreases |reqs|
  {
    if reqs != [] {
      var tail := reqs[1..];
      assert forall k :: 0 <= k < |tail| ==> tail[k] == reqs[k + 1];
      CollectTilesFlat(tail, fetch);
      var all := seq(|reqs|, k requires 0 <= k < |reqs| => TileFeatures(fetch(reqs[k]).value, reqs[k]));
      assert all[1..] == seq(|tail|, k requires 0 <= k < |tail| => TileFeatures(fetch(tail[k]).value, tail[k]));
    }
  }

  /** `getKomootHighlights(z, nW, sE)`: what the returned promise resolves to,
      `None` when it rejects. */
  function KomootHighlights(z: int, view: int -> Corners, fetch: TileRequest -> Option<VectorTile>): (r: Option<seq<TrailFeature>>)
    ensures z < TrailMinZoom ==> r == Some([])
  {
    CollectTiles(TrailTileRequests(z, view), fetch)
  }

  /** Every resolved trail feature comes from a tile of the viewport at the
      clamped zoom. */
  lemma KomootHighlightsInViewport(z: int, view: int -> Corners, fetch: TileRequest -> Option<VectorTile>)
    requires KomootHighlights(z, view, fetch).Some?
    ensures forall f :: f in KomootHighlights(z, view, fetch).value ==>
      f.tile.zoom == TrailZoom(z).value && InBox(Tile(f.tile.x, f.tile.y), view(TrailZoom(z).value))
  {
    var reqs := TrailTileRequests(z, view);
    CollectTilesSound(reqs, fetch);
    if z >= TrailMinZoom {
      TrailTileRequestsCoverViewport(z, view);
      forall f | f in KomootHighlights(z, view, fetch).value
        ensures f.tile.zoom == TrailZoom(z).value && InBox(Tile(f.tile.x, f.tile.y), view(TrailZoom(z).value))
      {
        var k :| 0 <= k < |reqs| && f in TileFeatures(fetch(reqs[k]).value, reqs[k]);
        assert f.tile == reqs[k];
        assert reqs[k] in reqs;
      }
    }
  }

  // ----- getStravaHeatmaps / fetchOneTileHeatmap -----

  /** `fetchOneTileHeatmap`'s `mappedSport`. */
  function ActivityVariant(s: Sport): (v: string)
    ensures s == Riding ==> v == "ride"
    ensures s == Running ==> v == "run"
  {
    if s == Riding then "ride" else "run"
  }

  const HeatmapBase := "http://localhost:8000/tiles/"
  const HeatmapStyle := "/blue/"
  const HeatmapExt := "@2x.png?v=19"

  function HeatmapUrl(s: Sport, zoom: int, x: int, y: int): (u: string)
    ensures |u| > |HeatmapBase + ActivityVariant(s) + HeatmapStyle|
    ensures u[..|HeatmapBase + ActivityVariant(s) + HeatmapStyle|] == HeatmapBase + ActivityVariant(s) + HeatmapStyle
  {
    HeatmapBase + (ActivityVariant(s) + (HeatmapStyle + TilePath(zoom, x, y, HeatmapExt)))
  }

  /** The heatmap URL determines the sport and the tile. */
  lemma HeatmapUrlInjective(s1: Sport, z1: int, x1: int, y1: int, s2: Sport, z2: int, x2: int, y2: int)
    requires HeatmapUrl(s1, z1, x1, y1) == HeatmapUrl(s2, z2, x2, y2)
    ensures s1 == s2 && z1 == z2 && x1 == x2 && y1 == y2
  {
    var p1, p2 := TilePath(z1, x1, y1, HeatmapExt), TilePath(z2, x2, y2, HeatmapExt);
    var v1, v2 := ActivityVariant(s1), ActivityVariant(s2);
    var a1, a2 := v1 + (HeatmapStyle + p1), v2 + (HeatmapStyle + p2);
    DropPrefix(HeatmapBase, a1, a2);
    SameVariant(s1, HeatmapStyle + p1, s2, HeatmapStyle + p2);
    DropPrefix(v1, HeatmapStyle + p1, HeatmapStyle + p2);
    DropPrefix(HeatmapStyle, p1, p2);
    TilePathInjective(z1, x1, y1, z2, x2, y2, HeatmapExt);
  }

  lemma SameVariant(s1: Sport, rest1: string, s2: Sport, rest2: string)
    requires ActivityVariant(s1) + rest1 == ActivityVariant(s2) + rest2
    ensures s1 == s2
  {
    assert |ActivityVariant(s1)| >= 2 && |ActivityVariant(s2)| >= 2;
    assert (ActivityVariant(s1) + rest1)[1] == ActivityVariant(s1)[1];
    assert (ActivityVariant(s2) + rest2)[1] == ActivityVariant(s2)[1];
  }

  lemma DropPrefix(p: string, a: string, b: string)
    requires p + a == p + b
    ensures a == b
  {
    assert a == (p + a)[|p|..];
    assert b == (p + b)[|p|..];
  }

  /** `StravaHeatmap`: the tile whose polygon `tileToGeoJSON` computes (the
      polygon itself is the library's) and the image URL. */
  datatype Heatmap = Heatmap(tile: TileRequest, img: string)

  function FetchOneTileHeatmap(zoom: int, x: int, y: int, s: Sport): (h: Heatmap)
    ensures h.tile == TileRequest(zoom, x, y)
    ensures h.img == HeatmapUrl(s, zoom, x, y)
  {
    Heatmap(TileRequest(zoom, x, y), HeatmapUrl(s, zoom, x, y))
  }

  /** `getStravaHeatmaps`: one descriptor per grid tile at the capped zoom, in
      grid order. */
  function StravaHeatmaps(z: int, view: int -> Corners, s: Sport): (hs: seq<Heatmap>)
    ensures |hs| == |Grid(view(HeatmapZoom(z)))|
    ensures forall k :: 0 <= k < |hs| ==>
      hs[k].tile == TileRequest(HeatmapZoom(z), Grid(view(HeatmapZoom(z)))[k].x, Grid(view(HeatmapZoom(z)))[k].y)
    ensures forall k :: 0 <= k < |hs| ==>
      hs[k].img == HeatmapUrl(s, HeatmapZoom(z), Grid(view(HeatmapZoom(z)))[k].x, Grid(view(HeatmapZoom(z)))[k].y)
  {
    var zoom := HeatmapZoom(z);
    var g := Grid(view(zoom));
    seq(|g|, k requires 0 <= k < |g| => FetchOneTileHeatmap(zoom, g[k].x, g[k].y, s))
  }

  /** Distinct tiles get distinct image URLs, so the ids derived from them
      never collide. */
  lemma StravaHeatmapImagesDistinct(z: int, view: int -> Corners, s: Sport)
    ensures forall i, j :: 0 <= i < j < |StravaHeatmaps(z, view, s)| ==>
      StravaHeatmaps(z, view, s)[i].img != StravaHeatmaps(z, view, s)[j].img
  {
    var zoom := HeatmapZoom(z);
    var g, hs := Grid(view(zoom)), StravaHeatmaps(z, view, s);
    GridDistinct(view(zoom));
    forall i, j | 0 <= i < j < |hs|
      ensures hs[i].img != hs[j].img
    {
      if hs[i].img == hs[j].img {
        HeatmapUrlInjective(s, zoom, g[i].x, g[i].y, s, zoom, g[j].x, g[j].y);
      }
    }
  }
}
