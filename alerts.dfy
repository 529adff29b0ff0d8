/**
 * A threshold filter on one material (`MaterialAlert`) and its check against
 * the material list of a body scan (`MaterialAlert.check_matches`), which
 * yields a `MaterialMatch`.
 *
 * Thresholds and percentages are whole hundredths of a percent: 30.00% is 3000.
 */
module Alerts {
  import opened Wrappers
  import opened Strings
  import opened Catalog

  /** A filter: alert when `material` makes up at least `threshold` of a body. */
  datatype MaterialFilter = MaterialFilter(material: Material, threshold: int, enabled: bool)
  {
    /** The `disabled` attribute the settings codec reads: the negation of `enabled`. */
    predicate Disabled()
    {
      !enabled
    }
  }

  /** A material found on a body at `percent`, at or above some filter's threshold. */
  datatype MaterialMatch = MaterialMatch(material: Material, percent: int)

  /** One `{Name, Percent}` entry of a scan's material list. */
  datatype Observation = Observation(name: string, percent: int)

  /** How a scan entry's name is resolved to a material: `Materials.by_name` in the plugin. */
  type Resolver = string -> Option<Material>

  /**
   * Entry `o` satisfies filter `f` when names resolve through `resolve`: the
   * name resolves to a material equal (by id) to the filter's, and the
   * percentage reaches the threshold. A name that resolves to `None` equals no
   * material.
   */
  predicate QualifiesUnder(resolve: Resolver, f: MaterialFilter, o: Observation)
  {
    match resolve(o.name)
    case None => false
    case Some(m) => SameMaterial(f.material, m) && o.percent >= f.threshold
  }

  /** The first entry, in list order, that satisfies `f` under `resolve`, as a match. */
  function FirstMatch(resolve: Resolver, f: MaterialFilter, observations: seq<Observation>): (r: Option<MaterialMatch>)
    ensures r.None? <==> forall i | 0 <= i < |observations| :: !QualifiesUnder(resolve, f, observations[i])
  {
    if observations == [] then None
    else if QualifiesUnder(resolve, f, observations[0]) then
      Some(MaterialMatch(resolve(observations[0].name).value, observations[0].percent))
    else
      assert forall i | 1 <= i < |observations| :: observations[i] == observations[1..][i - 1];
      FirstMatch(resolve, f, observations[1..])
  }

  /** The search answers with entry `i` when it is the first that qualifies. */
  lemma {:induction false} FirstMatchAt(resolve: Resolver, f: MaterialFilter, observations: seq<Observation>, i: nat)
    requires i < |observations| && QualifiesUnder(resolve, f, observations[i])
    requires forall j | 0 <= j < i :: !QualifiesUnder(resolve, f, observations[j])
    ensures FirstMatch(resolve, f, observations) == Some(MaterialMatch(resolve(observations[i].name).value, observations[i].percent))
  {
    if i > 0 {
      var rest := observations[1..];
      assert !QualifiesUnder(resolve, f, observations[0]);
      assert rest[i - 1] == observations[i];
      assert forall j | 0 <= j < i - 1 :: rest[j] == observations[j + 1];
      FirstMatchAt(resolve, f, rest, i - 1);
    }
  }

  /** Whatever the search answers comes from an entry that qualifies. */
  lemma {:induction false} FirstMatchQualifies(resolve: Resolver, f: MaterialFilter, observations: seq<Observation>)
    requires FirstMatch(resolve, f, observations).Some?
    ensures exists i | 0 <= i < |observations| :: QualifiesUnder(resolve, f, observations[i])
              && FirstMatch(resolve, f, observations) == Some(MaterialMatch(resolve(observations[i].name).value, observations[i].percent))
  {
    if !QualifiesUnder(resolve, f, observations[0]) {
      FirstMatchQualifies(resolve, f, observations[1..]);
      var i :| 0 <= i < |observations[1..]| && QualifiesUnder(resolve, f, observations[1..][i])
              && FirstMatch(resolve, f, observations[1..]) == Some(MaterialMatch(resolve(observations[1..][i].name).value, observations[1..][i].percent));
      assert observations[1..][i] == observations[i + 1];
    } else {
      assert QualifiesUnder(resolve, f, observations[0]);
    }
  }

  /** Entry `o` satisfies filter `f` with names resolved by the catalog (`Materials.by_name`). */
  predicate Qualifies(f: MaterialFilter, o: Observation)
  {
    QualifiesUnder(ByName, f, o)
  }

  /** The match that entry `o` yields: the resolved material and the entry's percentage. */
  function MatchOf(o: Observation): MaterialMatch
    requires ByName(o.name).Some?
  {
    MaterialMatch(ByName(o.name).value, o.percent)
  }

  /**
   * `MaterialAlert.check_matches`: the match for the first entry, in list order,
   * that satisfies the filter, or `None` when no entry does. The `enabled` flag
   * plays no part.
   */
  function CheckMatches(f: MaterialFilter, observations: seq<Observation>): (r: Option<MaterialMatch>)
    ensures r.None? <==> forall i | 0 <= i < |observations| :: !Qualifies(f, observations[i])
  {
    FirstMatch(ByName, f, observations)
  }

  /** The match comes from the first entry that satisfies the filter. */
  lemma CheckMatchesFirst(f: MaterialFilter, observations: seq<Observation>, i: nat)
    requires i < |observations| && Qualifies(f, observations[i])
    requires forall j | 0 <= j < i :: !Qualifies(f, observations[j])
    ensures CheckMatches(f, observations) == Some(MatchOf(observations[i]))
  {
    FirstMatchAt(ByName, f, observations, i);
  }

  /**
   * A match carries the filter's material (the very same one when the filter's
   * material is a catalog member) and a percentage at or above the threshold.
   */
  lemma MatchMeetsFilter(f: MaterialFilter, observations: seq<Observation>)
    requires CheckMatches(f, observations).Some?
    ensures SameMaterial(CheckMatches(f, observations).value.material, f.material)
    ensures CheckMatches(f, observations).value.percent >= f.threshold
    ensures f.material in Items ==> CheckMatches(f, observations).value.material == f.material
  {
    FirstMatchQualifies(ByName, f, observations);
    var i :| 0 <= i < |observations| && QualifiesUnder(ByName, f, observations[i])
             && FirstMatch(ByName, f, observations) == Some(MaterialMatch(ByName(observations[i].name).value, observations[i].percent));
    IdEqualityIsEquality();
  }

  /** An entry whose name is not in the catalog never matches and is passed over. */
  lemma UnknownNameSkipped(f: MaterialFilter, o: Observation, rest: seq<Observation>)
    requires ByName(o.name).None?
    ensures CheckMatches(f, [o] + rest) == CheckMatches(f, rest)
  {
    assert ([o] + rest)[1..] == rest;
  }

  /** The threshold is inclusive: an entry of the filter's material at exactly the threshold matches. */
  lemma ThresholdInclusive(f: MaterialFilter, o: Observation)
    requires f.material in Items && NameIs(f.material, o.name) && o.percent == f.threshold
    ensures CheckMatches(f, [o]) == Some(MaterialMatch(f.material, f.threshold))
  {
    ByNameExact(o.name, f.material);
  }

  /** Lowering a filter's threshold never loses a match. */
  lemma LowerThresholdKeepsMatch(f: MaterialFilter, t: int, observations: seq<Observation>)
    requires t <= f.threshold && CheckMatches(f, observations).Some?
    ensures CheckMatches(f.(threshold := t), observations).Some?
  {
    var i :| 0 <= i < |observations| && Qualifies(f, observations[i]);
    assert Qualifies(f.(threshold := t), observations[i]);
  }

  /**
   * `check_matches` does not consult `enabled`: a disabled filter on Arsenic at
   * 30% still matches a body with 40% arsenic.
   */
  lemma DisabledFilterStillMatches()
    ensures CheckMatches(MaterialFilter(Arsenic, 3000, false), [Observation("arsenic", 4000)])
            == Some(MaterialMatch(Arsenic, 4000))
  {
    assert Lower("arsenic") == Lower(Arsenic.name) by {
      LowerIdempotent(Arsenic.name);
      assert Lower(Arsenic.name) == "arsenic";
    }
    assert Arsenic in Items;
    ByNameExact("arsenic", Arsenic);
    var f := MaterialFilter(Arsenic, 3000, false);
    var o := Observation("arsenic", 4000);
    assert Qualifies(f, o);
    assert CheckMatches(f, [o]) == Some(MatchOf(o));
  }
}
