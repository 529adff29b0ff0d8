# EDMaterializer in Dafny

EDMaterializer is a plugin for the Elite Dangerous Market Connector. It watches the
game's journal and lists the landable bodies of the current star system whose surface
materials reach thresholds the commander has set. This project models the plugin's
domain logic and proves properties of the model:

- `catalog.dfy` (module `Catalog`): the fixed table of 28 materials and four rarities,
  material and rarity equality by id, and the lookups by name, symbol, rarity and id.
- `alerts.dfy` (module `Alerts`): a threshold filter and `check_matches`, the
  first-match search over a scan's `{Name, Percent}` list.
- `settings.dfy` (module `Settings`): the codec between the filter list and the
  `SYMBOL>=VALUE` strings the host stores. The enabled flag travels in the sign of VALUE.
- `frame.dfy` (module `Frame`): the body-to-matches map of `MaterialAlertListFrame`.
- `plugin.dfy` (module `Plugin`): `plugin_start`, `journal_entry` and `prefs_changed`.
  These are a pure step function on the plugin's state, and a class whose methods
  update the module globals and the frame in place.
- `strings.dfy`, `decimal.dfy` and `wrappers.dfy` hold support code:
  - ASCII lower case, `str.split('>=')` with two-way unpacking, and `str.replace(old, '', 1)`;
  - a fixed-point decimal parser and printer;
  - `Option` and `Result`.

Thresholds and percentages are integers counting hundredths, so 30.00 % is 3000. The
decoder rounds to two decimals and the encoder prints two decimals. No float arithmetic
is modelled. The exceptions the Python code raises on the inputs the model covers are
explicit error values; the inputs it does not cover are listed under "## Left out".
Examples are a `KeyError` for a journal key that is missing, the failed
unpacking of a stored entry without exactly one `>=`, and `str.replace` called with
`None`.

In several places the code behaves differently from what the plugin's design
suggests; the model follows the code:

- `check_matches` never looks at the enabled flag, although a disabled filter is
  meant to match nothing.
- A jump always clears the match map, even to the same system.
- A scan overwrites an earlier entry for the same body, so the last write wins.
- There is no priority flag, no stored observation map and no filter re-evaluation
  (`updateFilters`).
- A malformed stored entry raises an exception. It is not skipped.
- A landable detailed scan before any jump raises an exception. It does not adopt the
  scan's system.

## Model

| member | source | states |
|---|---|---|
| Catalog.CatalogIds | material_api.py:121-148 | The catalog has 28 materials with ids in 1..28, pairwise distinct |
| Catalog.CatalogRarities | material_api.py:121-148 | Every material's rarity is one of the four grades |
| Catalog.SymbolsDistinct | material_api.py:121-148 | No two materials have the same symbol ignoring case |
| Catalog.NamesDistinct | material_api.py:121-148 | No two materials have the same name ignoring case |
| Catalog.RarityIdEquality | material_api.py:74-90 | Among the four grades, equality by `rarityId` is plain equality |
| Catalog.DistinctIdsIdentify | material_api.py:107-112 | In any list with pairwise different ids, equality by `materialId` is plain equality |
| Catalog.IdEqualityIsEquality | material_api.py:107-112 | On catalog values, equality by `materialId` (and by `rarityId`) is plain equality |
| Catalog.FindByName | material_api.py:160-163 | Over any list: `None` exactly when no member's name equals the query ignoring case, else a member whose name does |
| Catalog.FindByNameFirst | material_api.py:160-162 | When member `i` is the first whose name matches, the search returns member `i` |
| Catalog.ByName | material_api.py:156-163 | `by_name` returns a catalog material with that name ignoring case, or `None` exactly when there is none |
| Catalog.ByNameExact | material_api.py:156-163 | `by_name(n) == m` exactly when `m` is in the catalog and named `n` ignoring case |
| Catalog.FindBySymbol | material_api.py:169-172 | Over any list: `None` exactly when no member's symbol equals the query ignoring case, else a member whose symbol does |
| Catalog.FindBySymbolFirst | material_api.py:169-171 | When member `i` is the first whose symbol matches, the search returns member `i` |
| Catalog.BySymbol | material_api.py:165-172 | `by_symbol` returns a catalog material with that symbol ignoring case, or `None` exactly when there is none |
| Catalog.BySymbolExact | material_api.py:165-172 | `by_symbol(s) == m` exactly when `m` is in the catalog with symbol `s` ignoring case |
| Catalog.LookupsFindMembers | material_api.py:156-172 | Every catalog material is found by its own name and symbol, in any case |
| Catalog.ItemNames | material_api.py:189-193 | Entry `i` is exactly the name of catalog material `i`, and looking it up gives that material back |
| Catalog.WithRarity | material_api.py:152-154 | The members of a list with the rarity: exactly those, in list order |
| Catalog.ByRarity | material_api.py:152-154 | `by_rarity` returns exactly the catalog materials of that rarity, in catalog order |
| Catalog.WithRarityCounts | material_api.py:152-154 | Splitting a list by the four rarities loses and duplicates nothing: the lengths add up |
| Catalog.WithRarityPartition | material_api.py:152-154 | Over materials of the four grades, each is under its own grade and under no other |
| Catalog.RaritiesPartitionCatalog | material_api.py:152-154 | Every material is in exactly one rarity class, and the four classes have 28 members together |
| Catalog.ByIdAsWrittenRaises | material_api.py:178-179 | `by_id` as written raises for every id, while the corrected lookup finds Antimony for id 1 |
| Catalog.FindById | material_api.py:178-181 | Over any list, read through `materialId`: a member with that id, or `None` exactly when there is none |
| Catalog.FindByIdExact | material_api.py:178-181 | Over a list with pairwise different ids, the search returns `m` exactly when `m` is a member with that id |
| Catalog.ById | material_api.py:174-181 | Corrected `by_id`: a catalog material with that id, or `None` exactly when there is none |
| Catalog.ByIdExact | material_api.py:174-181 | Corrected `by_id(i) == m` exactly when `m` is in the catalog with id `i`; `None` outside 1..28 |
| Alerts.FirstMatch | material_api.py:42-48 | For any name resolver: `None` exactly when no entry qualifies |
| Alerts.FirstMatchAt | material_api.py:42-46 | When entry `i` is the first that qualifies, the search answers with entry `i`'s material and percent |
| Alerts.FirstMatchQualifies | material_api.py:42-46 | Whatever the search answers comes from an entry that qualifies |
| Alerts.CheckMatches | material_api.py:35-48 | `None` exactly when no entry qualifies; an entry qualifies when its name resolves to the filter's material and its percent reaches the threshold |
| Alerts.CheckMatchesFirst | material_api.py:42-46 | When entry `i` is the first that qualifies, the match is made from entry `i` |
| Alerts.MatchMeetsFilter | material_api.py:45-46 | A match carries the filter's material (the very same one for a catalog filter) and a percent at least the threshold |
| Alerts.UnknownNameSkipped | material_api.py:43-45 | An entry whose name is not in the catalog never matches and does not stop the search |
| Alerts.ThresholdInclusive | material_api.py:45 | A percent equal to the threshold matches |
| Alerts.LowerThresholdKeepsMatch | material_api.py:45-46 | Lowering the threshold keeps a match |
| Alerts.DisabledFilterStillMatches | material_api.py:35-48 | A disabled filter still matches: Arsenic 30.00 % off matches an `arsenic` entry at 40.00 % |
| Strings.SplitPair | material_ui.py:244 | Two parts joined by `>=` with no `>=` in either, or `None` exactly when the entry has no `>=` or two |
| Strings.SplitPairJoin | material_ui.py:244 | A symbol and a value without `>` joined by `>=` split back into themselves |
| Strings.RemoveFirst | load.py:87 | The string with the first occurrence removed, or unchanged when there is none |
| Strings.RemoveFirstPrefix | load.py:87 | Removing a prefix from a string that starts with it leaves the rest |
| Decimal.Format | material_ui.py:282 | The printed number contains no `>`, starts with `-` exactly when it is negative, and after the sign is at least one digit, `.` and exactly two fraction digits |
| Decimal.ParseFormat | material_ui.py:251 | Parsing the printed number gives back the same hundredths |
| Decimal.ParseAccepts | material_ui.py:251 | A string is read as a number exactly when it has the form `['-'] digits ['.' digits]`; any other string is `None` |
| Decimal.Parse | material_ui.py:251 | A number is never read from the empty string or a lone `-`; a negative result needs a leading `-`, and a leading `-` never gives a positive one |
| Decimal.ParseWhole | material_ui.py:251 | `[-]digits` reads as that many units, 100 hundredths each, negated after `-` |
| Decimal.ParsePoint | material_ui.py:251 | `[-]whole.frac` reads as the value of its digits in hundredths, negated after `-` |
| Decimal.ScaledHundredthsExact | material_ui.py:251 | With at most two fraction digits nothing is rounded |
| Decimal.ScaledHundredthsRounds | material_ui.py:251 | With more fraction digits the result is the nearest hundredth, a half going up (away from zero) |
| Decimal.ExampleRoundsHalfUp | material_ui.py:251 | `30.555` is read as 30.56 |
| Decimal.ExampleRoundsAwayFromZero | material_ui.py:251 | `-0.005` is read as -0.01 |
| Settings.FromStored | material_ui.py:250-256 | A VALUE above -100.00 is an enabled filter, one at or below it a disabled filter with a threshold of at least 0 |
| Settings.FromStoredValue | material_ui.py:252-254 | Storing a filter's VALUE and reading it back gives the filter exactly when it is storable |
| Settings.DecodeEntry | material_ui.py:244-257 | No single `>=` raises; an unknown symbol is skipped; for a known symbol, a VALUE that is not a number raises and otherwise the filter is the one that VALUE stands for (`FromStored` of the parsed hundredths) |
| Settings.DecodeEach | material_ui.py:241-259 | For any per-entry decoder, at most one filter per entry |
| Settings.DecodedFromEntries | material_ui.py:241-259 | Every decoded filter is what the decoder made of some entry |
| Settings.Decode | material_ui.py:238-239 | `None` (nothing stored yet) decodes to no filters |
| Settings.DecodedAreCatalogMaterials | material_ui.py:246-257 | Every decoded filter is of a catalog material |
| Settings.AbsentIsEmpty | material_ui.py:238-272 | Decode and encode of `None` both give the empty list |
| Settings.EncodeList | material_ui.py:274-282 | Without `clean`, one entry per filter, in the same order; with it, no more entries than filters |
| Settings.EnabledOnly | material_ui.py:275-276 | A subsequence of the list (order kept) holding each enabled filter exactly as often as the list does and no disabled filter |
| Settings.EncodeCleanDropsDisabled | material_ui.py:275-276 | With `clean`, the output is the unclean output of the enabled filters: disabled ones left out, others unchanged |
| Settings.DecodeEachSnoc | material_ui.py:242-257 | One more entry: an earlier error stays; otherwise the entry's error becomes the result, a skipped entry adds nothing, and its filter is appended at the end |
| Settings.DecodeFailureStops | material_ui.py:242-244 | Once an entry raises, later entries change nothing |
| Settings.DecodeFailsAt | material_ui.py:242-244 | When the entries before one decode and that one raises, the list raises that error whatever follows |
| Settings.DecodeFailsIff | material_ui.py:242-257 | Decoding raises exactly when some entry raises |
| Settings.DecodeEachAppend | material_ui.py:241-259 | Decoding a concatenation gives the two decoded lists in order |
| Settings.DecodeLoop | material_ui.py:241-259 | The loop, step by step and stopping at the first error, computes `DecodeEach` for any per-entry decoder |
| Settings.TranslateFromSettings | material_ui.py:231-259 | The method computes `Decode`, including its errors |
| Settings.TranslateToSettings | material_ui.py:261-284 | The loop, step by step, computes `Encode` |
| Settings.EntrySplits | material_ui.py:244 | A stored entry of a catalog material splits at its own `>=` into the symbol and the printed VALUE |
| Settings.DecodeEncodeEntry | material_ui.py:244-256 | One stored entry of a catalog material reads back as the filter its VALUE stands for |
| Settings.DecodeEncodedWith | material_ui.py:244-282 | A decoder that reads each stored entry back as its VALUE's filter reads the stored list back filter by filter |
| Settings.RestoredIsIdentity | material_ui.py:250-256 | Every filter reads back as itself exactly when every filter is storable |
| Settings.DecodeEncodeWith | material_ui.py:244-282 | For such a decoder, decoding the encoding gives the filters back exactly when every filter is storable |
| Settings.DecodeEncode | material_ui.py:244-282 | For catalog materials, decoding the encoding gives the filters back exactly when every filter is storable |
| Settings.ExampleArsenicValue | test.py:30 | Arsenic 30 % on has VALUE 3000, printed `30.00` |
| Settings.ExampleArsenic | test.py:30-35 | Arsenic 30 % on is stored as `As>=30.00` |
| Settings.ExamplePoloniumValue | test.py:31 | Polonium 2.3 % off has VALUE -102.30, printed `-102.30` |
| Settings.ExamplePolonium | test.py:31-35 | Polonium 2.3 % off is stored as `Po>=-102.30` |
| Settings.ExampleZirconiumValue | test.py:32 | Zirconium 0 % on has VALUE 0, printed `0.00` |
| Settings.ExampleZirconium | test.py:32-35 | Zirconium 0 % on is stored as `Zr>=0.00` |
| Settings.ExampleBoronValue | test.py:33 | Boron 0 % off has VALUE -100.00, printed `-100.00` |
| Settings.ExampleBoron | test.py:33-35 | Boron 0 % off is stored as `B>=-100.00` |
| Settings.ExampleEncodes | test.py:26-36 | Encoding the test's filters gives `['As>=30.00','Po>=-102.30','Zr>=0.00','B>=-100.00']` |
| Settings.ExampleDecodes | test.py:13-23 | Decoding those strings gives Arsenic 30 on, Polonium 2.3 off, Zirconium 0 on, Boron 0 off |
| Frame.WithPlanet | material_ui.py:174 | Setting a key: it holds the new list, and every other key and value is as before |
| Frame.LastWriteWins | material_ui.py:174 | Setting a key twice keeps only the second list |
| Frame.MaterialAlertListFrame.constructor | material_ui.py:143-150 | A new frame has an empty match map |
| Frame.MaterialAlertListFrame.ClearMatches | material_ui.py:161-167 | `clear_matches` empties the map |
| Frame.MaterialAlertListFrame.AddMatches | material_ui.py:169-175 | `add_matches` sets only that key to the given list |
| Plugin.Present | load.py:85 | The non-`None` results: empty exactly when all are `None`, never longer, nothing invented |
| Plugin.PresentAppend | load.py:85 | Filtering a concatenation filters each part, in order |
| Plugin.ScanMatches | load.py:85 | At most one match per filter |
| Plugin.ScanMatchesChecks | load.py:85 | The matches are empty exactly when no filter matches, and each is some filter's `check_matches` result |
| Plugin.ScanMatchesAppend | load.py:85 | Matches of concatenated filter lists come out in filter-list order |
| Plugin.ScanMatchesMeetFilters | load.py:85 | Every match has some filter's material and reaches that filter's threshold |
| Plugin.BodyKey | load.py:86-87 | The key is never longer than the body name |
| Plugin.BodyKeyStripsSystem | load.py:87 | A body named system plus suffix is keyed by the suffix |
| Plugin.BodyKeyKeepsForeignName | load.py:87 | A body whose name lacks the system name is keyed by its whole name |
| Plugin.Step | load.py:71-89 | No entry changes the filters; only a jump changes the current system |
| Plugin.JumpClears | load.py:76-78 | A jump sets the current system to the entry's and empties the match map |
| Plugin.OtherEntriesChangeNothing | load.py:80-82 | Any entry other than a jump or a landable detailed scan leaves the state unchanged |
| Plugin.ScanUpdatesOneBody | load.py:84-89 | A landable detailed scan sets the body's key to its matches if there are some, and touches no other key |
| Plugin.ScanBeforeJumpRaises | load.py:87 | A landable detailed scan before any jump raises `TypeError` |
| Plugin.StepKeepsNoEmptyLists | load.py:88-89 | No step lists a body with no matches |
| Plugin.RestartRestoresFilters | load.py:35-46 | Saving filters and starting again restores them exactly when every filter is storable |
| Plugin.Materializer.constructor | load.py:59-68 | The frame `plugin_app` creates starts empty; the globals start as no system and no filters, the values `plugin_start` gives them with nothing stored |
| Plugin.Materializer.PluginStart | load.py:40-47 | Forgets the system; on success installs the decoded filters and returns `Materializer`, else raises and keeps the old filters |
| Plugin.Materializer.PrefsChanged | load.py:30-37 | Installs the edited filters and returns their stored form, disabled filters included |
| Plugin.Materializer.RecordLandableScan | load.py:84-89 | For a landable detailed scan: handles it as `Step` does, keeps every listed body non-empty, and on an exception changes nothing |
| Plugin.Materializer.JournalEntryEvent | load.py:71-89 | Handles an entry as `Step` does, keeps every listed body non-empty, and on an exception changes nothing |

## Left out

- Drawing the matches is not modelled: widgets, theme colours, fonts, the sorted order of
  bodies on screen and the one-decimal percent text. Only the match map is.
- The settings editor frames, `plugin_prefs`, `plugin_app`'s Tk parent and
  `add_test_matches` are UI. `legacy.py` and the test demo apps are UI too.
- The EDSM query worker is left out. `edsm_queries.py` is not part of this model
  because it is a thread with an HTTP session and a throttled queue.
- `config.get` / `config.set` are the host's storage. `PluginStart` takes the stored
  list as a parameter and `PrefsChanged` returns the list to store.
- The diagnostic `print` for an unknown symbol and `MaterialAlert.__str__` produce
  output only.
- `Locale.numberFromString` / `Locale.stringFromNumber` are host code. They are replaced
  by a parser of `['-'] digits ['.' digits]` and a printer with two fraction digits,
  `.` as separator and no grouping:
  - input beyond two fraction digits is rounded half away from zero;
  - localised separators, exponents and whitespace are not accepted;
  - a number that does not parse is the `NotANumber` error.
- Floats are not modelled. A threshold such as 2.3 is exactly 230 hundredths, so the
  rounding noise of `(threshold * -1) - 100.0` is absent.
- `str.lower` is modelled on ASCII letters only. Every catalog name and symbol is ASCII.
- `Materials.items` uses reflection (`inspect.getmembers`). The model has a literal
  table in the order that call produces, sorted by constant name.
- Journal entries are modelled as records of the keys the handler reads. Other value
  types are left out:
  - `Landable` counts only as a boolean, so any other value behaves like "not `True`";
  - `StarSystem` and `BodyName` are taken as ASCII strings, so `str(...)` is the identity.
    In Python 2 the journal's values are `unicode`, and `str(...)` of a non-ASCII name
    raises `UnicodeEncodeError` (load.py:77, load.py:86, and `str(item)` in `by_name` at
    material_api.py:161). The model goes on with such a name instead of raising;
  - likewise a stored entry held as `unicode` whose symbol part is not ASCII, such as
    `Ä>=5`, raises `UnicodeEncodeError` at `str(symbol)` in `by_symbol`
    (material_api.py:170). The model's `DecodeEntry` finds no such symbol and skips the
    entry instead of raising;
  - a material entry without `Name` or `Percent`, which would raise inside
    `check_matches`, cannot be expressed;
  - `Materials` is taken as a list of `{Name, Percent}` records. The older journal form,
    a dictionary from name to percent, makes `material_raw[FIELD_NAME]` raise
    `TypeError` at material_api.py:43; that form cannot be expressed;
  - `Percent` is a float with more than two decimals. The model holds it truncated to
    hundredths. Truncation keeps every `percent >= threshold` decision, since the
    threshold is a whole number of hundredths.
- `load.py` imports `MaterialAlertListSettingsFrame`, which `material_ui.py` does not
  define, so as written the module fails to import. The model describes the plugin as
  if the import succeeded.
- `MaterialAlert.__init__` takes only a material and a threshold, but the codec and the
  tests construct filters with a third, enabled argument and read `enabled` /
  `disabled`. The model's filter has the enabled field those callers need.
- Before `plugin_start` and `plugin_app` run, the module globals `currentSystem`,
  `materialAlertFilters` and `materialAlertsFrame` are unset, and a hook that reads one
  raises `AttributeError`. The model's object starts with no system, no filters and an
  empty frame, so that error is not modelled.
- Plugin.Materializer.JournalEntryEvent: requires the match map to list no body without
  matches. The Python code has no such guard; this is the frame's own invariant, which
  every method keeps.

## Findings

| source | as written | input that shows it | evidently intended | confidence | as-written member | corrected member |
|---|---|---|---|---|---|---|
| material_api.py:179 | `by_id` reads `material.material_id`, but `Material` stores the id as `materialId` (material_api.py:100), so the first comparison raises `AttributeError` | `by_id(1)` | compare `materialId` and return Antimony for 1 | high (not executed) | Catalog.ByIdAsWrittenRaises | Catalog.ByIdExact |
