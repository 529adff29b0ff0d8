/**
 * The plugin's event handling (load.py): the module globals `currentSystem`
 * and `materialAlertFilters`, plus the frame's match map, updated by
 * `plugin_start`, `journal_entry` and `prefs_changed`.
 *
 * A journal entry is a dictionary; reading a key it lacks raises `KeyError`.
 * The model keeps the keys the handler reads as `Option` fields, so a missing
 * key is `None`, and each exception the model covers is an error outcome that
 * leaves the state as it was (no assignment happens before the raising read).
 */
module Plugin {
  import opened Wrappers
  import opened Strings
  import opened Catalog
  import opened Alerts
  import opened Settings
  import opened Frame

  const EventFsdJump := "FSDJump"
  const EventScan := "Scan"
  const ScanTypeDetailed := "Detailed"

  const FieldStarSystem := "StarSystem"
  const FieldScanType := "ScanType"
  const FieldLandable := "Landable"
  const FieldMaterials := "Materials"
  const FieldBodyName := "BodyName"

  /** The keys of a journal entry the handler reads; `landable` is `Some(true)` only for the value `True`. */
  datatype JournalEntry = JournalEntry(
    event: string,
    starSystem: Option<string>,
    scanType: Option<string>,
    landable: Option<bool>,
    bodyName: Option<string>,
    materials: Option<seq<Observation>>)

  /** What `journal_entry` raises: a key the entry lacks, or `str.replace` with `None` before the first jump. */
  datatype PluginError = KeyError(key: string) | TypeError

  /** The plugin's state: the system of the last jump, the filter list and the frame's match map. */
  datatype PluginState = PluginState(
    currentSystem: Option<string>,
    filters: seq<MaterialFilter>,
    planetMatches: MatchMap)

  /** What the frame promises of its map: no body is listed without a match. */
  predicate NoEmptyLists(planetMatches: MatchMap)
  {
    forall k | k in planetMatches :: planetMatches[k] != []
  }

  /** The inner comprehension of `journal_entry`: each filter's `check_matches` result, in filter order. */
  function Results(filters: seq<MaterialFilter>, observations: seq<Observation>): (r: seq<Option<MaterialMatch>>)
    ensures |r| == |filters|
    ensures forall i | 0 <= i < |filters| :: r[i] == CheckMatches(filters[i], observations)
  {
    seq(|filters|, i requires 0 <= i < |filters| => CheckMatches(filters[i], observations))
  }

  /** The outer comprehension: the results that are not `None`, in order. */
  function Present(results: seq<Option<MaterialMatch>>): (r: seq<MaterialMatch>)
    ensures |r| <= |results|
    ensures r == [] <==> forall i | 0 <= i < |results| :: results[i].None?
    ensures forall m | m in r :: Some(m) in results
  {
    if results == [] then []
    else
      assert forall i | 1 <= i < |results| :: results[i] == results[1..][i - 1];
      match results[0]
      case None => Present(results[1..])
      case Some(m) => [m] + Present(results[1..])
  }

  /** Keeping the present results of two lists keeps those of each, one after the other. */
  lemma {:induction false} PresentAppend(a: seq<Option<MaterialMatch>>, b: seq<Option<MaterialMatch>>)
    ensures Present(a + b) == Present(a) + Present(b)
  {
    if a == [] {
      assert a + b == b;
    } else {
      assert (a + b)[1..] == a[1..] + b;
      PresentAppend(a[1..], b);
    }
  }

  /** The matches of a scan: at most one per filter, in filter order. */
  function ScanMatches(filters: seq<MaterialFilter>, observations: seq<Observation>): (r: seq<MaterialMatch>)
    ensures |r| <= |filters|
  {
    Present(Results(filters, observations))
  }

  /**
   * A scan yields no match exactly when no filter matches, and every match it
   * yields is some filter's `check_matches` result.
   */
  lemma ScanMatchesChecks(filters: seq<MaterialFilter>, observations: seq<Observation>)
    ensures ScanMatches(filters, observations) == [] <==> forall i | 0 <= i < |filters| :: CheckMatches(filters[i], observations).None?
    ensures forall m | m in ScanMatches(filters, observations) ::
      exists i | 0 <= i < |filters| :: CheckMatches(filters[i], observations) == Some(m)
  {
    var results := Results(filters, observations);
    assert forall m | Some(m) in results :: exists i | 0 <= i < |filters| :: results[i] == Some(m);
  }

  /** Matching two filter lists one after the other gives their matches one after the other. */
  lemma ScanMatchesAppend(a: seq<MaterialFilter>, b: seq<MaterialFilter>, observations: seq<Observation>)
    ensures ScanMatches(a + b, observations) == ScanMatches(a, observations) + ScanMatches(b, observations)
  {
    var ra, rb, rab := Results(a, observations), Results(b, observations), Results(a + b, observations);
    forall i | 0 <= i < |rab| ensures rab[i] == (ra + rb)[i] {
      if i < |a| {
        assert (a + b)[i] == a[i];
      } else {
        assert (a + b)[i] == b[i - |a|];
      }
    }
    assert rab == ra + rb;
    PresentAppend(ra, rb);
  }

  /** Every match of a scan meets its filter: same material, percentage at least the threshold. */
  lemma ScanMatchesMeetFilters(filters: seq<MaterialFilter>, observations: seq<Observation>)
    ensures forall m | m in ScanMatches(filters, observations) ::
      exists f | f in filters :: SameMaterial(m.material, f.material) && m.percent >= f.threshold
  {
    ScanMatchesChecks(filters, observations);
    forall m | m in ScanMatches(filters, observations)
      ensures exists f | f in filters :: SameMaterial(m.material, f.material) && m.percent >= f.threshold
    {
      var i :| 0 <= i < |filters| && CheckMatches(filters[i], observations) == Some(m);
      MatchMeetsFilter(filters[i], observations);
      assert filters[i] in filters;
    }
  }

  /** The frame key of a scanned body: its name with the first occurrence of the system name removed. */
  function BodyKey(bodyName: string, system: string): (key: string)
    ensures |key| <= |bodyName|
  {
    RemoveFirst(bodyName, system)
  }

  /** A body named after its system, the usual case, is keyed by what follows the system name. */
  lemma BodyKeyStripsSystem(system: string, rest: string)
    ensures BodyKey(system + rest, system) == rest
  {
    RemoveFirstPrefix(system, rest);
  }

  /** A body whose name does not contain the system name is keyed by its whole name. */
  lemma BodyKeyKeepsForeignName(bodyName: string, system: string)
    requires forall j :: !OccursAt(bodyName, system, j)
    ensures BodyKey(bodyName, system) == bodyName
  {
  }

  /** `journal_entry` on a state: the new state, or the exception it raises. */
  function Step(s: PluginState, e: JournalEntry): (r: Result<PluginState, PluginError>)
    ensures r.Success? && e.event != EventFsdJump ==> r.value.currentSystem == s.currentSystem
    ensures r.Success? ==> r.value.filters == s.filters
  {
    if e.event == EventFsdJump then
      match e.starSystem
      case None => Failure(KeyError(FieldStarSystem))
      case Some(system) => Success(PluginState(Some(system), s.filters, map[]))
    else if e.event == EventScan then
      match e.scanType
      case None => Failure(KeyError(FieldScanType))
      case Some(scanType) =>
        if scanType != ScanTypeDetailed then Success(s)
        else
          match e.landable
          case None => Failure(KeyError(FieldLandable))
          case Some(landable) =>
            if !landable then Success(s)
            else
              match e.materials
              case None => Failure(KeyError(FieldMaterials))
              case Some(observations) =>
                var matches := ScanMatches(s.filters, observations);
                match e.bodyName
                case None => Failure(KeyError(FieldBodyName))
                case Some(body) =>
                  match s.currentSystem
                  case None => Failure(TypeError)
                  case Some(system) =>
                    if matches == [] then Success(s)
                    else Success(s.(planetMatches := WithPlanet(s.planetMatches, BodyKey(body, system), matches)))
    else Success(s)
  }

  /** The entries whose handling reaches the match map: a detailed scan of a landable body. */
  predicate IsLandableDetailedScan(e: JournalEntry)
  {
    e.event == EventScan && e.scanType == Some(ScanTypeDetailed) && e.landable == Some(true)
  }

  /** A jump sets the current system to the entry's and empties the match map. */
  lemma JumpClears(s: PluginState, e: JournalEntry)
    requires e.event == EventFsdJump && e.starSystem.Some?
    ensures Step(s, e).Success?
    ensures Step(s, e).value.currentSystem == e.starSystem
    ensures Step(s, e).value.planetMatches == map[]
  {
  }

  /** An entry that is neither a jump nor a landable detailed scan changes nothing, once its keys are read. */
  lemma OtherEntriesChangeNothing(s: PluginState, e: JournalEntry)
    requires e.event != EventFsdJump && !IsLandableDetailedScan(e)
    requires e.event == EventScan ==> e.scanType.Some? && (e.scanType == Some(ScanTypeDetailed) ==> e.landable.Some?)
    ensures Step(s, e) == Success(s)
  {
  }

  /**
   * A landable detailed scan after a jump: the body's key holds the scan's
   * matches when there are some, and no other key changes.
   */
  lemma ScanUpdatesOneBody(s: PluginState, e: JournalEntry)
    requires IsLandableDetailedScan(e) && e.materials.Some? && e.bodyName.Some? && s.currentSystem.Some?
    ensures Step(s, e).Success?
    ensures var key, matches := BodyKey(e.bodyName.value, s.currentSystem.value), ScanMatches(s.filters, e.materials.value);
      var t := Step(s, e).value;
      && (matches == [] ==> t.planetMatches == s.planetMatches)
      && (matches != [] ==> key in t.planetMatches && t.planetMatches[key] == matches)
      && (forall k | k != key :: (k in t.planetMatches <==> k in s.planetMatches))
      && (forall k | k != key && k in t.planetMatches :: t.planetMatches[k] == s.planetMatches[k])
  {
  }

  /** A landable detailed scan before any jump raises, as `str.replace` is called with `None`. */
  lemma ScanBeforeJumpRaises(s: PluginState, e: JournalEntry)
    requires IsLandableDetailedScan(e) && e.materials.Some? && e.bodyName.Some? && s.currentSystem.None?
    ensures Step(s, e) == Failure(TypeError)
  {
  }

  /** No step lists a body without matches. */
  lemma StepKeepsNoEmptyLists(s: PluginState, e: JournalEntry)
    requires NoEmptyLists(s.planetMatches)
    requires Step(s, e).Success?
    ensures NoEmptyLists(Step(s, e).value.planetMatches)
  {
  }

  /**
   * The plugin itself: the globals of load.py and the frame `plugin_app`
   * creates. The constructor stands for loading the module and `plugin_app`.
   */
  class Materializer {
    var currentSystem: Option<string>
    var materialAlertFilters: seq<MaterialFilter>
    const frame: MaterialAlertListFrame

    /** The plugin's state as a value. */
    function State(): PluginState
      reads this, frame
    {
      PluginState(currentSystem, materialAlertFilters, frame.planetMatches)
    }

    /** The match map lists no body without matches. */
    predicate Valid()
      reads this, frame
    {
      NoEmptyLists(frame.planetMatches)
    }

    /**
     * The plugin before its first event. load.py leaves `currentSystem` and
     * `materialAlertFilters` unset until `plugin_start` assigns them
     * (load.py:44-46), and `plugin_app` only creates the frame; here they start
     * as no system and no filters, the values `plugin_start` gives them when
     * nothing is stored.
     */
    constructor ()
      ensures fresh(frame)
      ensures State() == PluginState(None, [], map[])
      ensures Valid()
    {
      currentSystem := None;
      materialAlertFilters := [];
      frame := new MaterialAlertListFrame();
    }

    /**
     * `plugin_start`: forgets the current system, then reads the stored filters;
     * if they fail to decode, the exception propagates and the filters stay.
     */
    method PluginStart(stored: Option<seq<string>>) returns (r: Result<string, DecodeError>)
      modifies this
      ensures currentSystem == None
      ensures Decode(stored).Success? ==> r == Success("Materializer") && materialAlertFilters == Decode(stored).value
      ensures Decode(stored).Failure? ==> r == Failure(Decode(stored).error) && materialAlertFilters == old(materialAlertFilters)
    {
      currentSystem := None;
      var filters := TranslateFromSettings(stored);
      if filters.Failure? {
        return Failure(filters.error);
      }
      materialAlertFilters := filters.value;
      return Success("Materializer");
    }

    /**
     * `prefs_changed`: takes the edited filters and returns the strings it
     * stores, disabled filters included.
     */
    method PrefsChanged(edited: seq<MaterialFilter>) returns (stored: seq<string>)
      modifies this
      ensures materialAlertFilters == edited && currentSystem == old(currentSystem)
      ensures stored == Encode(Some(edited), false)
    {
      materialAlertFilters := edited;
      stored := TranslateToSettings(Some(materialAlertFilters), false);
    }

    /**
     * The branch of `journal_entry` for a detailed scan of a landable body:
     * checks the scan against every filter and records the body's matches.
     */
    method RecordLandableScan(entry: JournalEntry) returns (r: Result<(), PluginError>)
      requires Valid() && IsLandableDetailedScan(entry)
      modifies frame
      ensures Valid()
      ensures Step(old(State()), entry).Success? ==> r.Success? && State() == Step(old(State()), entry).value
      ensures Step(old(State()), entry).Failure? ==>
        r == Failure(Step(old(State()), entry).error) && State() == old(State())
    {
      if entry.materials.None? {
        return Failure(KeyError(FieldMaterials));
      }
      var matches := ScanMatches(materialAlertFilters, entry.materials.value);
      if entry.bodyName.None? {
        return Failure(KeyError(FieldBodyName));
      }
      if currentSystem.None? {
        return Failure(TypeError);
      }
      var planetName := BodyKey(entry.bodyName.value, currentSystem.value);
      if matches != [] {
        frame.AddMatches(planetName, matches);
      }
      return Success(());
    }

    /** `journal_entry`: handles one event as `Step` says, or raises and changes nothing. */
    method JournalEntryEvent(entry: JournalEntry) returns (r: Result<(), PluginError>)
      requires Valid()
      modifies this, frame
      ensures Valid()
      ensures Step(old(State()), entry).Success? ==> r.Success? && State() == Step(old(State()), entry).value
      ensures Step(old(State()), entry).Failure? ==>
        r == Failure(Step(old(State()), entry).error) && State() == old(State())
    {
      if entry.event == EventFsdJump {
        if entry.starSystem.None? {
          return Failure(KeyError(FieldStarSystem));
        }
        currentSystem := Some(entry.starSystem.value);
        frame.ClearMatches();
      } else if entry.event == EventScan {
        if entry.scanType.None? {
          return Failure(KeyError(FieldScanType));
        }
        if entry.scanType.value == ScanTypeDetailed {
          if entry.landable.None? {
            return Failure(KeyError(FieldLandable));
          }
          if entry.landable.value {
            r := RecordLandableScan(entry);
            return;
          }
        }
      }
      return Success(());
    }
  }

  /**
   * Saving filters and starting again gives back the same filters exactly when
   * each is storable (catalog materials assumed, as the settings editor offers
   * only those).
   */
  lemma RestartRestoresFilters(edited: seq<MaterialFilter>)
    requires forall f | f in edited :: f.material in Items
    ensures Decode(Some(Encode(Some(edited), false))) == Success(edited) <==> forall f | f in edited :: Storable(f)
  {
    DecodeEncode(edited);
  }
}
