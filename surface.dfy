/** The map widget object the overlay functions receive and mutate in place.
    Each call changes the object's state as `SceneModel` describes. */
module Surface {
  import opened SceneModel

  class MapSurface {
    var layers: seq<Layer>
    var sources: map<string, SourceData>
    var handlers: seq<string>

    function State(): Scene
      reads this
    {
      Scene(layers, sources, handlers)
    }

    constructor ()
      ensures State() == Scene([], map[], [])
      ensures WellFormed(State())
    {
      layers, sources, handlers := [], map[], [];
    }

    method Set(sc: Scene)
      modifies this
      ensures State() == sc
    {
      layers, sources, handlers := sc.layers, sc.sources, sc.handlers;
    }

    method AddSource(id: string, data: SourceData)
      modifies this
      ensures State() == SceneModel.AddSource(old(State()), id, data)
    {
      Set(SceneModel.AddSource(State(), id, data));
    }

    method AddLayer(id: string, src: LayerSource, style: Style)
      modifies this
      ensures State() == SceneModel.AddLayer(old(State()), id, src, style)
    {
      Set(SceneModel.AddLayer(State(), id, src, style));
    }

    method RemoveLayer(id: string)
      modifies this
      ensures State() == SceneModel.RemoveLayer(old(State()), id)
    {
      Set(SceneModel.RemoveLayer(State(), id));
    }

    method RemoveSource(id: string)
      modifies this
      ensures State() == SceneModel.RemoveSource(old(State()), id)
    {
      Set(SceneModel.RemoveSource(State(), id));
    }

    method On(layerId: string)
      modifies this
      ensures State() == SceneModel.On(old(State()), layerId)
    {
      handlers := handlers + [layerId];
    }
  }
}
