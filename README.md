# Where-to-go overlays — a Dafny model

The application is a single-page map (`src/App.tsx`). It shows three overlays
for the current viewport:

- the ten most relevant Strava segments, as coloured lines;
- Komoot trail-view points, as a circle layer and a heatmap layer;
- Strava heatmap images, one raster layer per map tile.

This project models the core of that file:

- `Tiles`: the tile resolver `calcAllVisibleTiles`. Its two nested loops are
  proved to list exactly the inclusive grid between the corner tiles, x-major,
  without repeats, with the expected count.
- `Overlays`: the per-overlay zoom clamps of `getKomootHighlights` (nothing
  below zoom 7, otherwise zoom `max(z, 9)`) and `getStravaHeatmaps`
  (`min(10, z)`). It also holds the tile URLs, the feature loop of
  `fetchOneTile`, the all-or-nothing fan-out of `getKomootHighlights` over
  `Promise.all`, and the heatmap descriptors of `fetchOneTileHeatmap`.
- `Decimal`: how template literals render integers (`${segment.id}`,
  `${zoom}`), with injectivity, so ids built from numbers never collide.
- `SceneModel` and `Surface`: the map widget the overlay functions mutate. A
  scene is a layer stack, a map of sources and the list of registered click
  handlers. `MapSurface` is the mutable object; its methods are proved equal to
  the scene functions.
- `Lifecycle`: the add and delete functions of the three overlays, as methods
  that take a `MapSurface` and update it in place, proved against pure scene
  functions:
  - `addSegments` / `deleteSegments`;
  - `addStravaHeatmaps` / `deleteStravaHeatmap`;
  - `addKomootTrailview` / `deleteTrailViews` / `deleteHeatMap`.

  Lemmas state what each add draws and whether the matching delete restores
  the scene.
- `Refresh`: the `isSending` guard of `fetchOverlayData`, as a state machine
  over clicks and fetch settlements, plus the class holding that state.

Two places in the code do not do what it evidently intends. Both are listed
under "## Findings", and the model gives both the code as written and a
corrected version:

- The effect cleanup at src/App.tsx:56 pairs `deleteSegments` with
  `addSegments`, so it is meant to undo it. But `deleteSegments` removes ids
  that `addSegments` never created.
- The button at src/App.tsx:107 stays disabled only while `isSending` is set,
  so the flag is meant to cover both fetches. But the first rejection of
  `Promise.all` clears it while the other fetch is still running.

## Model

| member | source | states |
|---|---|---|
| Tiles.CalcAllVisibleTiles | src/App.tsx:346-353 | the nested loops push exactly `Grid(c)`: one column per x from the north-west x to the south-east x, each column y ascending |
| Tiles.GridContents | src/App.tsx:348-352 | a pair is in the result if and only if it lies in the inclusive box between the two corner tiles |
| Tiles.GridOrdered | src/App.tsx:348-352 | the pairs are listed x-major with y ascending, strictly |
| Tiles.GridDistinct | src/App.tsx:348-352 | no pair is listed twice |
| Tiles.GridLength | src/App.tsx:348-352 | the result has `(seX - nwX + 1) * (seY - nwY + 1)` pairs, and none when the corners are crossed (no antimeridian wrap) |
| Tiles.SingleTile | src/App.tsx:348-352 | a viewport inside one tile resolves to exactly that tile |
| Decimal.NatToString | src/App.tsx:132 | a natural number renders as a non-empty run of decimal digits, one digit exactly below 10 |
| Decimal.NatToStringInjective | src/App.tsx:132 | distinct segment ids give distinct layer ids |
| Decimal.IntToString | src/App.tsx:382 | an integer renders as a leading minus exactly when negative, followed by at least one digit and nothing but digits |
| Decimal.IntToStringInjective | src/App.tsx:382 | distinct integers render differently |
| Overlays.TrailZoom | src/App.tsx:357-361 | no tiles exactly below zoom 7; otherwise the zoom is `max(z, 9)` |
| Overlays.HeatmapZoom | src/App.tsx:373 | the zoom is `min(10, z)` |
| Overlays.TilePathInjective | src/App.tsx:389 | the `zoom/x/y` path followed by a non-numeric extension determines zoom, x and y |
| Overlays.TrailTileUrl | src/App.tsx:389 | the trail-view tile URL starts with the Komoot tile server base |
| Overlays.TrailTileUrlInjective | src/App.tsx:389 | two trail-view tile URLs are equal only for the same tile |
| Overlays.TileFeatures | src/App.tsx:395-406 | no features when the tile has no `komoot_trailview` layer; otherwise one feature per index, in index order, each placed in the fetched tile |
| Overlays.FetchOneTileFeatures | src/App.tsx:396-406 | the `for` loop over the layer's features collects exactly `TileFeatures` |
| Overlays.TrailTileRequests | src/App.tsx:355-364 | no requests below zoom 7; otherwise one request per grid tile at the clamped zoom, in grid order |
| Overlays.TrailTileRequestsCoverViewport | src/App.tsx:359-364 | from zoom 7 on, a tile is requested if and only if it is in the viewport at the clamped zoom, and never twice |
| Overlays.CollectTiles | src/App.tsx:364 | an empty batch resolves to no features; every resolved feature comes from one of the requested tiles |
| Overlays.CollectTilesSound | src/App.tsx:364 | the batch fails if and only if one tile fails; otherwise a feature is in it if and only if it is a feature of one of the tiles |
| Overlays.CollectTilesFlat | src/App.tsx:364 | when every tile resolves, the batch is `a.flat()` of the per-tile feature lists: each tile's features in order, tiles in request order |
| Overlays.KomootHighlights | src/App.tsx:357 | below zoom 7 the result resolves to the empty list without fetching |
| Overlays.KomootHighlightsInViewport | src/App.tsx:355-365 | every resolved feature comes from a viewport tile at the clamped zoom |
| Overlays.ActivityVariant | src/App.tsx:381 | riding maps to `ride`, running to `run` |
| Overlays.HeatmapUrl | src/App.tsx:382 | the heatmap image URL starts with the local tile server base, the sport's variant and `/blue/` |
| Overlays.FetchOneTileHeatmap | src/App.tsx:379-385 | the descriptor carries the requested tile and that tile's image URL for the sport |
| Overlays.HeatmapUrlInjective | src/App.tsx:382 | the heatmap image URL determines sport, zoom, x and y |
| Overlays.StravaHeatmaps | src/App.tsx:372-376 | one descriptor per grid tile at the capped zoom, in grid order, each with the image URL of its sport and tile |
| Overlays.StravaHeatmapImagesDistinct | src/App.tsx:372-376 | the descriptors of one call have pairwise distinct image URLs |
| SceneModel.AddSource | src/App.tsx:162 | a new id is stored with exactly the given data; a taken id leaves the scene unchanged; layers and handlers are untouched and well-formedness is kept |
| SceneModel.AddLayer | src/App.tsx:133-145 | the layer is accepted if and only if its id is new and its source can be had (an inline source's id is free, a named source exists); an accepted layer goes on top, drawing from the layer id or the named source, and an inline source is stored under the layer id; handlers are untouched and well-formedness is kept |
| SceneModel.RemoveLayer | src/App.tsx:265 | exactly the layers with another id remain; a missing id leaves the scene unchanged; no source or handler is touched and well-formedness is kept |
| SceneModel.RemoveLayerKeepsOrder | src/App.tsx:265 | removing a present layer takes out exactly its position in the stack; the layers below and above keep their stacking order |
| SceneModel.RemoveSource | src/App.tsx:266 | an existing source no layer uses is removed and nothing else changes; otherwise the scene is unchanged; well-formedness is kept |
| SceneModel.On | src/App.tsx:149 | a click registration appends the handler and changes nothing else |
| SceneModel.TeardownInstalled | src/App.tsx:269-274 | removing, layer then source, every entry of a freshly added batch restores the layers and sources exactly |
| Surface.MapSurface.AddSource | src/App.tsx:162 | the widget object's state afterwards is `SceneModel.AddSource` of its old state |
| Surface.MapSurface.AddLayer | src/App.tsx:133-145 | the widget object's state afterwards is `SceneModel.AddLayer` of its old state |
| Surface.MapSurface.RemoveLayer | src/App.tsx:265 | the widget object's state afterwards is `SceneModel.RemoveLayer` of its old state |
| Surface.MapSurface.RemoveSource | src/App.tsx:272 | the widget object's state afterwards is `SceneModel.RemoveSource` of its old state |
| Surface.MapSurface.On | src/App.tsx:250 | the widget object's state afterwards is `SceneModel.On` of its old state |
| Lifecycle.Reverse | src/App.tsx:116 | `segments.reverse()` reverses the caller's array in place |
| Lifecycle.AddSegments | src/App.tsx:113-157 | the caller's array ends reversed, and the map state is that of drawing each segment in the reversed order |
| Lifecycle.SegmentsDrawnOnTop | src/App.tsx:116-156 | on fresh ids, one line layer per segment goes on top in drawing order, with its own source and click handler, and the scene stays well formed |
| Lifecycle.MostRelevantSegmentOnTop | src/App.tsx:115-142 | the caller's first segment ends as the top layer with colour `#0fe400`; all others get `#0074e4`, in reverse order below it |
| Lifecycle.DeleteSegments | src/App.tsx:283-288 | the map state is that of removing layer `segment-line-<id>` for each segment, in order |
| Lifecycle.SegmentsDeletedKeepsDecimalIds | src/App.tsx:283-288 | `deleteSegments` never removes a layer whose id is all digits, and never touches sources or handlers |
| Lifecycle.SegmentTeardownLeavesLayers | src/App.tsx:283-288 | deleting the segments just drawn leaves every one of their layers, sources and handlers in place |
| Lifecycle.SegmentTeardownRestores | src/App.tsx:283-288 | with layer and source `${segment.id}` removed instead, deleting the drawn segments restores layers and sources |
| Lifecycle.DeleteSegmentsCorrected | src/App.tsx:283-288 | the corrected deletion's map state is that teardown |
| Lifecycle.AddStravaHeatmaps | src/App.tsx:159-179 | the map state is that of adding each heatmap's image source and then its raster layer, in order |
| Lifecycle.DeleteStravaHeatmap | src/App.tsx:269-274 | the map state is that of removing each heatmap's layer and then its source, in order |
| Lifecycle.HeatmapTeardownRestores | src/App.tsx:269-274 | on fresh ids, the raster layers go on top in order with their sources, and deleting the same list restores the scene exactly |
| Lifecycle.ViewportHeatmapsRoundTrip | src/App.tsx:372-376 | for the descriptors of one `getStravaHeatmaps` call, add followed by delete restores the scene |
| Lifecycle.AddKomootTrailview | src/App.tsx:180-261 | the map state is that of adding `point-layer` and `heatmap-layer` with inline feature sources, then the click handler on `point-layer` |
| Lifecycle.DeleteTrailViews | src/App.tsx:277-281 | the map state is that of removing layer and source `point-layer` |
| Lifecycle.DeleteHeatMap | src/App.tsx:263-267 | the map state is that of removing layer and source `heatmap-layer` |
| Lifecycle.TrailviewTeardownRestores | src/App.tsx:180-281 | the two layers go on top with their sources; the two deletes restore layers and sources, but the `point-layer` click handler stays registered |
| Refresh.Trigger | src/App.tsx:33-35 | a click without a map or while sending changes nothing; otherwise both fetches start and the flag is set |
| Refresh.TopTenSettle | src/App.tsx:39 | the segment fetch always fulfils; the flag clears if and only if that completes the `Promise.all` |
| Refresh.HighlightsSettle | src/App.tsx:40-42 | the highlight fetch fulfils or rejects; the flag clears if and only if that settles the `Promise.all`, so a rejection clears it at once |
| Refresh.RunPending | src/App.tsx:38-42 | along any run, while the flag is set the batch is in one of the states before `Promise.all` settles |
| Refresh.RunFlagTracksAll | src/App.tsx:32-44 | along any run, the flag is set if and only if a refresh was started and its `Promise.all` has not settled |
| Refresh.FlagUntilAllSettles | src/App.tsx:32-44 | from the initial state, the flag stays set until the `Promise.all` of the latest refresh settles, and is clear otherwise |
| Refresh.RunNeverStuck | src/App.tsx:32-44 | from the initial state, the flag is never left set with no fetch outstanding |
| Refresh.PromiseAllReentry | src/App.tsx:38-42 | a click then a failed highlight fetch clears the flag while the segment fetch is in flight, and the next click is accepted |
| Refresh.HighlightsSettleCorrected | src/App.tsx:38-42 | with `allSettled`, the flag stays set while the segment fetch is in flight |
| Refresh.RunCorrectedGuarded | src/App.tsx:32-44 | with `allSettled`, along any run the flag is set exactly while a fetch is outstanding |
| Refresh.CorrectedNeverReentrant | src/App.tsx:32-44 | with `allSettled`, a click is accepted only when no fetch of an earlier refresh is outstanding |
| Refresh.RefreshGuard.FetchOverlayData | src/App.tsx:32-44 | returns whether the fetches started (a map is present and the flag was clear); the new state is `Trigger` of the old |
| Refresh.RefreshGuard.TopTenSettled | src/App.tsx:39-42 | the new state is `TopTenSettle` of the old |
| Refresh.RefreshGuard.HighlightsSettled | src/App.tsx:40-42 | the new state is `HighlightsSettle` of the old |
| Refresh.RefreshGuard.HighlightsSettledCorrected | src/App.tsx:38-42 | the new state is `HighlightsSettleCorrected` of the old |

## Left out

- The Web Mercator corner formulas of `calcAllVisibleTiles` (src/App.tsx:337-344) use floating-point trigonometry. The corner tile indices are inputs, and a viewport is a function from zoom to corner tiles.
- Zoom is an integer. The source floors `getZoom()` before storing it (src/App.tsx:98).
- Network requests, `Response` bodies, protobuf and vector-tile decoding, and `feature.toGeoJSON`'s projection are foreign code. A fetch is a parameter that returns a decoded tile or a failure, and a trail feature keeps its raw feature and its tile.
- The segment fetch `fetchTopTen` (URL, headers, JSON) is I/O. Only its catch-all is modelled: it always fulfils.
- `fetchTopSegmentCount` is never called by the application and is not modelled.
- `decode` of the encoded polyline (src/App.tsx:117-129) is foreign code. The app's own swap of each pair to longitude-latitude order (src/App.tsx:125) is dropped with it, because the model keeps no coordinates. A segment's source holds the encoded polyline.
- `tileToGeoJSON` is foreign code. A heatmap's source holds the image URL and its tile, not the polygon's corner coordinates.
- Lifecycle.AddStravaHeatmaps: does not model the in-place update at src/App.tsx:165. There, `coordinates[0].reverse()` reverses the caller's polygon ring in place (`Array.prototype.reverse`) before `slice(0, 4)` copies the corners. Adding the same heatmap objects a second time therefore flips the ring back, and the image gets its corners in the other order. The model keeps no coordinates, so it captures neither the mutation of the caller's descriptors nor that order.
- Paint, layout, `minzoom` and `maxzoom` properties are not modelled. Of the paint, only the line colour of segments is kept, because it carries the highlight.
- Popup contents and click-handler bodies are not modelled. A registration is recorded by its layer id.
- The map widget's own behaviour is an assumption of the model, because the widget library is not part of this model:
  - a duplicate id is refused without change;
  - removing a missing layer changes nothing;
  - a source that is missing or still in use is not removed.

  The real widget differs in two of those cases. `addSource` on a taken id throws, and so does `addLayer` with an inline source whose id (the layer id) is taken. `removeSource` on a missing id throws too. A throw ends the calling `forEach`, so the remaining items are not processed. The model instead leaves the scene unchanged at that call and carries on with the rest. The lemmas about adding and deleting require fresh ids, so they do not depend on this difference.
- The widget's loaded-style state is not modelled. The real `addSource`, `addLayer`, `removeLayer` and `removeSource` throw before the style has loaded. The source waits for `mapLoaded` only before `addStravaHeatmaps` (src/App.tsx:72), not before `addSegments` (src/App.tsx:55) or `addKomootTrailview` (src/App.tsx:61). The model's scene accepts every call at any time, so it does not capture those early throws.
- The widget's `off` is not modelled, because no function in src/App.tsx calls it. No delete function detaches click handlers, so they accumulate; the lemmas state this.
- React state, effects and their cleanup wiring (src/App.tsx:45-111) are not modelled. Neither are rendering, the disabled button, or stale closures. Each overlay function is modelled on its own.
- Refresh.Run: only the latest refresh's two fetches are tracked. A click that starts a new refresh forgets the settlements still due from a superseded one.
- Lifecycle.Segment: ids are natural numbers. A JavaScript number id could be fractional or negative.
- `server.py`, the tile proxy, is not part of this model.

## Findings

| source | as written | input that shows it | evidently intended | confidence | as-written member | corrected member |
|---|---|---|---|---|---|---|
| src/App.tsx:284-285 | `deleteSegments` removes layer `'segment-line-' + id`, but `addSegments` named it `${segment.id}` | draw `[Segment(1, "a", "p")]` on an empty map, then delete it: layer `1`, its source and its handler remain | remove layer `${segment.id}` and its source of the same id | high, not executed | Lifecycle.SegmentTeardownLeavesLayers | Lifecycle.SegmentTeardownRestores |
| src/App.tsx:38-42 | `Promise.all(...).finally` clears `isSending` at the first rejection | click; the trail-highlight fetch fails while the segment fetch is in flight; the flag is clear and a second click starts another segment fetch | clear the flag once both fetches have settled (`Promise.allSettled`) | medium, not executed | Refresh.PromiseAllReentry | Refresh.CorrectedNeverReentrant |
