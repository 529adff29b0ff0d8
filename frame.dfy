/**
 * The match map of `MaterialAlertListFrame` (material_ui.py): body name to the
 * matches found on that body. Drawing the map (labels, colours, fonts) is UI
 * and not modelled; only how the map changes is.
 */
module Frame {
  import opened Alerts

  type MatchMap = map<string, seq<MaterialMatch>>

  /** The map after `planet` is set to `matches`: that key holds them, every other key is as before. */
  function WithPlanet(planetMatches: MatchMap, planet: string, matches: seq<MaterialMatch>): (r: MatchMap)
    ensures planet in r && r[planet] == matches
    ensures forall k | k != planet :: (k in r <==> k in planetMatches)
    ensures forall k | k in r && k != planet :: r[k] == planetMatches[k]
    ensures r.Keys == planetMatches.Keys + {planet}
  {
    planetMatches[planet := matches]
  }

  /** Setting a key twice keeps only the second list: the last scan of a body wins. */
  lemma LastWriteWins(planetMatches: MatchMap, planet: string, first: seq<MaterialMatch>, second: seq<MaterialMatch>)
    ensures WithPlanet(WithPlanet(planetMatches, planet, first), planet, second) == WithPlanet(planetMatches, planet, second)
  {
  }

  class MaterialAlertListFrame {
    var planetMatches: MatchMap

    /** `__init__`: the frame starts with no matches. */
    constructor ()
      ensures planetMatches == map[]
    {
      planetMatches := map[];
    }

    /** `clear_matches`: a fresh, empty map. */
    method ClearMatches()
      modifies this
      ensures planetMatches == map[]
    {
      planetMatches := map[];
    }

    /** `add_matches`: sets `planet` to `matches`, overwriting an earlier list, and touches no other key. */
    method AddMatches(planet: string, matches: seq<MaterialMatch>)
      modifies this
      ensures planetMatches == WithPlanet(old(planetMatches), planet, matches)
    {
      planetMatches := planetMatches[planet := matches];
    }
  }
}
