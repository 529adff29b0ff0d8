/**
 * `MaterialAlertListSettings`: the filter list as the host stores it, a flat
 * list of `SYMBOL>=VALUE` strings. The enabled flag travels in the sign of
 * VALUE: a disabled filter with threshold t is stored as -t - 100.00, so every
 * VALUE at or below -100.00 reads back as a disabled filter.
 */
module Settings {
  import opened Wrappers
  import opened Strings
  import opened Decimal
  import opened Catalog
  import opened Alerts

  /** The exceptions decoding raises on a malformed entry. */
  datatype DecodeError =
    | NotOnePair(entry: string)   // the two-way unpacking of `split('>=')` fails
    | NotANumber(entry: string)   // the number parser returns None and `None * 100` fails

  /** -100.00, in hundredths: the boundary of the disabled range. */
  const DisabledOffset: int := 10000

  /** The VALUE stored for a filter: the threshold, or `(threshold * -1) - 100` when disabled. */
  function StoredValue(f: MaterialFilter): int
  {
    if f.enabled then f.threshold else -f.threshold - DisabledOffset
  }

  /** The filter a VALUE stands for: disabled with threshold `(-VALUE) - 100` at or below -100, else enabled. */
  function FromStored(m: Material, v: int): (f: MaterialFilter)
    ensures f.material == m
    ensures f.enabled <==> v > -DisabledOffset
    ensures !f.enabled ==> f.threshold >= 0
  {
    if v <= -DisabledOffset then MaterialFilter(m, -v - DisabledOffset, false) else MaterialFilter(m, v, true)
  }

  /** The filters whose stored form reads back as themselves. */
  predicate Storable(f: MaterialFilter)
  {
    (f.enabled ==> f.threshold > -DisabledOffset) && (!f.enabled ==> f.threshold >= 0)
  }

  /** Storing a filter and reading it back gives the filter exactly when it is storable. */
  lemma FromStoredValue(f: MaterialFilter)
    ensures FromStored(f.material, StoredValue(f)) == f <==> Storable(f)
  {
  }

  /**
   * One stored entry, as the body of the loop in `translate_from_settings`:
   * `Some(filter)`, `None` for an unknown symbol (reported and skipped), or the
   * exception a malformed entry raises. The symbol is looked up before the
   * number is read, so an unknown symbol with a malformed number is skipped.
   */
  function DecodeEntry(entry: string): (r: Result<Option<MaterialFilter>, DecodeError>)
    ensures r.Success? && r.value.Some? ==> r.value.value.material in Items
    ensures SplitPair(entry).None? ==> r == Failure(NotOnePair(entry))
    ensures SplitPair(entry).Some? && BySymbol(SplitPair(entry).value.0).None? ==> r == Success(None)
    ensures SplitPair(entry).Some? && BySymbol(SplitPair(entry).value.0).Some? ==>
      r == if Parse(SplitPair(entry).value.1).None? then Failure(NotANumber(entry))
           else Success(Some(FromStored(BySymbol(SplitPair(entry).value.0).value, Parse(SplitPair(entry).value.1).value)))
  {
    match SplitPair(entry)
    case None => Failure(NotOnePair(entry))
    case Some((key, value)) =>
      match BySymbol(key)
      case None => Success(None)
      case Some(m) =>
        match Parse(value)
        case None => Failure(NotANumber(entry))
        case Some(v) => Success(Some(FromStored(m, v)))
  }

  /** What decodes one stored entry: a filter, `None` to skip it, or an error. */
  type EntryDecoder = string -> Result<Option<MaterialFilter>, DecodeError>

  /**
   * One iteration of the loop of `translate_from_settings`: after an error
   * nothing changes; otherwise the entry's error ends the loop, a skipped entry
   * adds nothing and a filter is appended.
   */
  function Push(acc: Result<seq<MaterialFilter>, DecodeError>, step: Result<Option<MaterialFilter>, DecodeError>): Result<seq<MaterialFilter>, DecodeError>
  {
    match acc
    case Failure(x) => Failure(x)
    case Success(filters) =>
      match step
      case Failure(x) => Failure(x)
      case Success(None) => Success(filters)
      case Success(Some(f)) => Success(filters + [f])
  }

  /**
   * The loop of `translate_from_settings` over `entries`, for any per-entry
   * decoder: the decoded filters in entry order, skipped entries left out, or
   * the first entry's error.
   */
  function DecodeEach(decode: EntryDecoder, entries: seq<string>): (r: Result<seq<MaterialFilter>, DecodeError>)
    ensures r.Success? ==> |r.value| <= |entries|
  {
    if entries == [] then Success([])
    else Push(DecodeEach(decode, entries[..|entries| - 1]), decode(entries[|entries| - 1]))
  }

  /** `translate_from_settings`: `None` (nothing stored yet) reads as no filters. */
  function Decode(materials: Option<seq<string>>): (r: Result<seq<MaterialFilter>, DecodeError>)
    ensures materials.None? ==> r == Success([])
  {
    match materials
    case None => Success([])
    case Some(entries) => DecodeEach(DecodeEntry, entries)
  }

  /** Every decoded filter is what the decoder made of one of the entries. */
  lemma {:induction false} DecodedFromEntries(decode: EntryDecoder, entries: seq<string>)
    requires DecodeEach(decode, entries).Success?
    ensures forall f | f in DecodeEach(decode, entries).value :: exists e | e in entries :: decode(e) == Success(Some(f))
  {
    if entries != [] {
      var init, last := entries[..|entries| - 1], entries[|entries| - 1];
      DecodedFromEntries(decode, init);
      assert forall e | e in init :: e in entries;
    }
  }

  /** Decoding yields filters of catalog materials only. */
  lemma DecodedAreCatalogMaterials(materials: Option<seq<string>>)
    requires Decode(materials).Success?
    ensures forall f | f in Decode(materials).value :: f.material in Items
  {
    if materials.Some? {
      DecodedFromEntries(DecodeEntry, materials.value);
    }
  }

  /** One filter as stored: its symbol, `>=`, and VALUE with two decimals. */
  function EncodeEntry(f: MaterialFilter): string
  {
    f.material.symbol + Separator + Format(StoredValue(f))
  }

  /** The loop of `translate_to_settings`: one entry per filter in order, skipping disabled ones when `clean`. */
  function EncodeList(filters: seq<MaterialFilter>, clean: bool): (r: seq<string>)
    ensures |r| <= |filters|
    ensures !clean ==> |r| == |filters| && forall i | 0 <= i < |filters| :: r[i] == EncodeEntry(filters[i])
  {
    if filters == [] then []
    else
      var f := filters[|filters| - 1];
      var init := EncodeList(filters[..|filters| - 1], clean);
      if clean && f.Disabled() then init else init + [EncodeEntry(f)]
  }

  /** `translate_to_settings`: `None` encodes as the empty list. */
  function Encode(alerts: Option<seq<MaterialFilter>>, clean: bool): seq<string>
  {
    match alerts
    case None => []
    case Some(filters) => EncodeList(filters, clean)
  }

  /** The absent list decodes and encodes to the empty list. */
  lemma AbsentIsEmpty(clean: bool)
    ensures Decode(None) == Success([]) && Encode(None, clean) == []
  {
  }

  /**
   * The enabled filters of a list, in order: a subsequence of the list holding
   * each enabled filter as often as the list does and no disabled one.
   */
  function EnabledOnly(filters: seq<MaterialFilter>): (r: seq<MaterialFilter>)
    ensures forall f :: f in r <==> f in filters && f.enabled
    ensures forall f :: multiset(r)[f] == (if f.enabled then multiset(filters)[f] else 0)
    ensures IsSubsequence(r, filters)
  {
    if filters == [] then []
    else
      var f := filters[|filters| - 1];
      var init := EnabledOnly(filters[..|filters| - 1]);
      assert filters == filters[..|filters| - 1] + [f];
      SubsequenceSnoc(init, filters[..|filters| - 1], f);
      if f.enabled then init + [f] else init
  }

  /** With `clean` the disabled filters are left out and every other entry is as without it. */
  lemma {:induction false} EncodeCleanDropsDisabled(filters: seq<MaterialFilter>)
    ensures EncodeList(filters, true) == EncodeList(EnabledOnly(filters), false)
  {
    if filters != [] {
      var init := filters[..|filters| - 1];
      EncodeCleanDropsDisabled(init);
      var f := filters[|filters| - 1];
      if f.enabled {
        var e := EnabledOnly(init) + [f];
        assert e[..|e| - 1] == EnabledOnly(init);
      }
    }
  }

  /**
   * One more stored entry: after an error the result stays that error; otherwise
   * the entry's error becomes the result, a skipped entry adds nothing and a
   * decoded filter is appended.
   */
  lemma DecodeEachSnoc(decode: EntryDecoder, entries: seq<string>, e: string)
    ensures DecodeEach(decode, entries).Failure? ==> DecodeEach(decode, entries + [e]) == DecodeEach(decode, entries)
    ensures DecodeEach(decode, entries).Success? && decode(e).Failure? ==>
      DecodeEach(decode, entries + [e]) == Failure(decode(e).error)
    ensures DecodeEach(decode, entries).Success? && decode(e) == Success(None) ==>
      DecodeEach(decode, entries + [e]) == DecodeEach(decode, entries)
    ensures forall f :: DecodeEach(decode, entries).Success? && decode(e) == Success(Some(f)) ==>
      DecodeEach(decode, entries + [e]) == Success(DecodeEach(decode, entries).value + [f])
  {
    assert (entries + [e])[..|entries|] == entries;
  }

  /** Once an entry has raised, nothing after it is decoded. */
  lemma {:induction false} DecodeFailureStops(decode: EntryDecoder, entries: seq<string>, rest: seq<string>)
    requires DecodeEach(decode, entries).Failure?
    ensures DecodeEach(decode, entries + rest) == DecodeEach(decode, entries)
    decreases |rest|
  {
    if rest == [] {
      assert entries + rest == entries;
    } else {
      var init, e := rest[..|rest| - 1], rest[|rest| - 1];
      DecodeFailureStops(decode, entries, init);
      assert entries + rest == (entries + init) + [e];
      DecodeEachSnoc(decode, entries + init, e);
    }
  }

  /** The first entry that raises decides the error of the whole list. */
  lemma DecodeFailsAt(decode: EntryDecoder, before: seq<string>, e: string, after: seq<string>)
    requires DecodeEach(decode, before).Success? && decode(e).Failure?
    ensures DecodeEach(decode, before + [e] + after) == Failure(decode(e).error)
  {
    DecodeEachSnoc(decode, before, e);
    DecodeFailureStops(decode, before + [e], after);
  }

  /** A list is what comes before an index, the entry there, and what comes after. */
  lemma SplitAround(entries: seq<string>, i: nat)
    requires i < |entries|
    ensures entries[..i] + [entries[i]] + entries[i + 1..] == entries
  {
  }

  /** Decoding raises exactly when some entry raises. */
  lemma {:induction false} DecodeFailsIff(decode: EntryDecoder, entries: seq<string>)
    ensures DecodeEach(decode, entries).Failure? <==> exists i | 0 <= i < |entries| :: decode(entries[i]).Failure?
  {
    if entries != [] {
      var init, e := entries[..|entries| - 1], entries[|entries| - 1];
      assert entries == init + [e];
      DecodeFailsIff(decode, init);
      DecodeEachSnoc(decode, init, e);
      if DecodeEach(decode, init).Failure? {
        var i :| 0 <= i < |init| && decode(init[i]).Failure?;
        assert entries[i] == init[i];
      }
      if exists i | 0 <= i < |entries| :: decode(entries[i]).Failure? {
        var i :| 0 <= i < |entries| && decode(entries[i]).Failure?;
        if i < |init| {
          assert init[i] == entries[i];
        }
      }
    }
  }

  /** Decoding two stored lists one after the other gives their filters one after the other, in order. */
  lemma {:induction false} DecodeEachAppend(decode: EntryDecoder, a: seq<string>, b: seq<string>)
    requires DecodeEach(decode, a).Success? && DecodeEach(decode, b).Success?
    ensures DecodeEach(decode, a + b) == Success(DecodeEach(decode, a).value + DecodeEach(decode, b).value)
    decreases |b|
  {
    var fa := DecodeEach(decode, a).value;
    if b == [] {
      assert a + b == a;
      assert fa + [] == fa;
    } else {
      var init, e := b[..|b| - 1], b[|b| - 1];
      assert b == init + [e];
      DecodeEachSnoc(decode, init, e);
      var fi := DecodeEach(decode, init).value;
      DecodeEachAppend(decode, a, init);
      assert DecodeEach(decode, a + init) == Success(fa + fi);
      assert a + b == (a + init) + [e];
      DecodeEachSnoc(decode, a + init, e);
      var step := decode(e);
      if step.Success? && step.value.Some? {
        var f := step.value.value;
        assert (fa + fi) + [f] == fa + (fi + [f]);
      }
    }
  }

  // ---------------------------------------------------------------------------
  // The two class methods, loop by loop
  // ---------------------------------------------------------------------------

  /**
   * The loop of `translate_from_settings`, with the body of one iteration given
   * as `decode`: skipped entries add nothing and the first error ends the loop.
   */
  method DecodeLoop(decode: EntryDecoder, entries: seq<string>) returns (r: Result<seq<MaterialFilter>, DecodeError>)
    ensures r == DecodeEach(decode, entries)
  {
    var alerts: seq<MaterialFilter> := [];
    for i := 0 to |entries|
      invariant DecodeEach(decode, entries[..i]) == Success(alerts)
    {
      var mat := entries[i];
      var step := decode(mat);
      if step.Failure? {
        SplitAround(entries, i);
        DecodeFailsAt(decode, entries[..i], mat, entries[i + 1..]);
        return Failure(step.error);
      }
      if step.value.Some? {
        alerts := alerts + [step.value.value];
      }
      assert entries[..i + 1] == entries[..i] + [mat];
      DecodeEachSnoc(decode, entries[..i], mat);
    }
    assert entries[..|entries|] == entries;
    return Success(alerts);
  }

  /** `MaterialAlertListSettings.translate_from_settings`: the loop with `DecodeEntry` as its body. */
  method TranslateFromSettings(materials: Option<seq<string>>) returns (r: Result<seq<MaterialFilter>, DecodeError>)
    ensures r == Decode(materials)
  {
    if materials.None? {
      return Success([]);
    }
    r := DecodeLoop(DecodeEntry, materials.value);
  }

  /** `MaterialAlertListSettings.translate_to_settings`. */
  method TranslateToSettings(alerts: Option<seq<MaterialFilter>>, clean: bool) returns (result: seq<string>)
    ensures result == Encode(alerts, clean)
  {
    result := [];
    if alerts.None? {
      return;
    }
    var filters := alerts.value;
    for i := 0 to |filters|
      invariant result == EncodeList(filters[..i], clean)
    {
      var alert := filters[i];
      assert filters[..i + 1][..i] == filters[..i];
      if clean && alert.Disabled() {
        continue;
      }
      var threshold := alert.threshold;
      if !alert.enabled {
        threshold := (threshold * -1) - DisabledOffset;
      }
      result := result + [alert.material.symbol + Separator + Format(threshold)];
    }
    assert filters[..|filters|] == filters;
  }

  // ---------------------------------------------------------------------------
  // Round trip
  // ---------------------------------------------------------------------------

  /** No catalog symbol holds a `>`, so a stored entry splits at its own separator. */
  lemma EntrySplits(f: MaterialFilter)
    requires f.material in Items
    ensures SplitPair(EncodeEntry(f)) == Some((f.material.symbol, Format(StoredValue(f))))
  {
    var i :| 0 <= i < |Items| && Items[i] == f.material;
    assert '>' !in f.material.symbol by {
      assert IsRow(i);
    }
    SplitPairJoin(f.material.symbol, Format(StoredValue(f)));
  }

  /** One stored entry reads back as the filter its VALUE stands for. */
  lemma DecodeEncodeEntry(f: MaterialFilter)
    requires f.material in Items
    ensures DecodeEntry(EncodeEntry(f)) == Success(Some(FromStored(f.material, StoredValue(f))))
  {
    EntrySplits(f);
    LookupsFindMembers(f.material);
    ParseFormat(StoredValue(f));
  }

  /** What each filter reads back as once stored: the filter its VALUE stands for. */
  function Restored(filters: seq<MaterialFilter>): seq<MaterialFilter>
  {
    seq(|filters|, i requires 0 <= i < |filters| => FromStored(filters[i].material, StoredValue(filters[i])))
  }

  /** The stored list reads back as the list of what each filter reads back as. */
  lemma {:induction false} DecodeEncodedWith(decode: EntryDecoder, filters: seq<MaterialFilter>)
    requires forall f | f in filters :: decode(EncodeEntry(f)) == Success(Some(FromStored(f.material, StoredValue(f))))
    ensures DecodeEach(decode, EncodeList(filters, false)) == Success(Restored(filters))
  {
    if filters == [] {
      assert Restored(filters) == [];
    } else {
      var init, f := filters[..|filters| - 1], filters[|filters| - 1];
      assert forall g | g in init :: g in filters;
      DecodeEncodedWith(decode, init);
      assert f in filters;
      assert EncodeList(filters, false) == EncodeList(init, false) + [EncodeEntry(f)];
      DecodeEachSnoc(decode, EncodeList(init, false), EncodeEntry(f));
      RestoredSnoc(filters);
    }
  }

  /** Reading back a list is reading back all but its last filter, then the last. */
  lemma RestoredSnoc(filters: seq<MaterialFilter>)
    requires filters != []
    ensures Restored(filters) == Restored(filters[..|filters| - 1]) + [FromStored(filters[|filters| - 1].material, StoredValue(filters[|filters| - 1]))]
  {
    var init := filters[..|filters| - 1];
    var r, ri := Restored(filters), Restored(init);
    forall i | 0 <= i < |ri| ensures r[i] == ri[i] {
      assert filters[i] == init[i];
    }
  }

  /** Every filter reads back as itself exactly when every filter is storable. */
  lemma RestoredIsIdentity(filters: seq<MaterialFilter>)
    ensures Restored(filters) == filters <==> forall f | f in filters :: Storable(f)
  {
    forall f | f in filters ensures FromStored(f.material, StoredValue(f)) == f <==> Storable(f) {
      FromStoredValue(f);
    }
    if forall f | f in filters :: Storable(f) {
      forall i | 0 <= i < |filters| ensures Restored(filters)[i] == filters[i] {
        assert filters[i] in filters;
      }
    } else {
      var f :| f in filters && !Storable(f);
      var i :| 0 <= i < |filters| && filters[i] == f;
      assert Restored(filters)[i] != filters[i];
    }
  }

  /**
   * For any decoder that reads each encoded entry back as the filter its VALUE
   * stands for, decoding what was encoded gives back the filters exactly when
   * every one is storable.
   */
  lemma DecodeEncodeWith(decode: EntryDecoder, filters: seq<MaterialFilter>)
    requires forall f | f in filters :: decode(EncodeEntry(f)) == Success(Some(FromStored(f.material, StoredValue(f))))
    ensures DecodeEach(decode, EncodeList(filters, false)) == Success(filters) <==> forall f | f in filters :: Storable(f)
  {
    DecodeEncodedWith(decode, filters);
    RestoredIsIdentity(filters);
  }

  /**
   * Decoding what was encoded gives back the filters (of catalog materials)
   * exactly when every one is storable: an enabled threshold above -100.00 or
   * a disabled threshold of at least 0.00.
   */
  lemma DecodeEncode(filters: seq<MaterialFilter>)
    requires forall f | f in filters :: f.material in Items
    ensures DecodeEach(DecodeEntry, EncodeList(filters, false)) == Success(filters) <==> forall f | f in filters :: Storable(f)
  {
    forall f | f in filters
      ensures DecodeEntry(EncodeEntry(f)) == Success(Some(FromStored(f.material, StoredValue(f))))
    {
      DecodeEncodeEntry(f);
    }
    DecodeEncodeWith(DecodeEntry, filters);
  }

  /** The stored list of the plugin's own test case. */
  const ExampleStored: seq<string> := ["As>=30.00", "Po>=-102.30", "Zr>=0.00", "B>=-100.00"]

  /** Its filters: Arsenic 30% on, Polonium 2.3% off, Zirconium 0% on, Boron 0% off. */
  const ExampleFilters: seq<MaterialFilter> := [
    MaterialFilter(Arsenic, 3000, true), MaterialFilter(Polonium, 230, false),
    MaterialFilter(Zirconium, 0, true), MaterialFilter(Boron, 0, false)
  ]

  /** The test case's Arsenic filter (enabled 30%) has VALUE 30.00. */
  lemma ExampleArsenicValue()
    ensures StoredValue(ExampleFilters[0]) == 3000 && Format(3000) == "30.00"
  {
  }

  /** The test case's Arsenic filter is stored as `As>=30.00`. */
  lemma ExampleArsenic()
    ensures EncodeEntry(ExampleFilters[0]) == ExampleStored[0]
  {
    ExampleArsenicValue();
    assert EncodeEntry(ExampleFilters[0]) == "As" + ">=" + "30.00";
  }

  /** The test case's Polonium filter (disabled 2.3%) has VALUE -102.30. */
  lemma ExamplePoloniumValue()
    ensures StoredValue(ExampleFilters[1]) == -10230 && Format(-10230) == "-102.30"
  {
    assert NatToDigits(102) == "102";
  }

  /** The test case's Polonium filter is stored as `Po>=-102.30`. */
  lemma ExamplePolonium()
    ensures EncodeEntry(ExampleFilters[1]) == ExampleStored[1]
  {
    ExamplePoloniumValue();
    assert EncodeEntry(ExampleFilters[1]) == "Po" + ">=" + "-102.30";
  }

  /** The test case's Zirconium filter (enabled 0%) has VALUE 0.00. */
  lemma ExampleZirconiumValue()
    ensures StoredValue(ExampleFilters[2]) == 0 && Format(0) == "0.00"
  {
  }

  /** The test case's Zirconium filter is stored as `Zr>=0.00`. */
  lemma ExampleZirconium()
    ensures EncodeEntry(ExampleFilters[2]) == ExampleStored[2]
  {
    ExampleZirconiumValue();
    assert EncodeEntry(ExampleFilters[2]) == "Zr" + ">=" + "0.00";
  }

  /** The test case's Boron filter (disabled 0%) has VALUE -100.00. */
  lemma ExampleBoronValue()
    ensures StoredValue(ExampleFilters[3]) == -10000 && Format(-10000) == "-100.00"
  {
    assert NatToDigits(100) == "100";
  }

  /** The test case's Boron filter is stored as `B>=-100.00`. */
  lemma ExampleBoron()
    ensures EncodeEntry(ExampleFilters[3]) == ExampleStored[3]
  {
    ExampleBoronValue();
    assert EncodeEntry(ExampleFilters[3]) == "B" + ">=" + "-100.00";
  }

  /** A list encodes as `stored` when its filters do, one by one. */
  lemma EncodesEntrywise(filters: seq<MaterialFilter>, stored: seq<string>)
    requires |filters| == |stored|
    requires forall i | 0 <= i < |filters| :: EncodeEntry(filters[i]) == stored[i]
    ensures EncodeList(filters, false) == stored
  {
  }

  /** Encoding the test case's filters gives its stored list. */
  lemma ExampleEncodes()
    ensures Encode(Some(ExampleFilters), false) == ExampleStored
  {
    ExampleArsenic();
    ExamplePolonium();
    ExampleZirconium();
    ExampleBoron();
    forall i | 0 <= i < |ExampleFilters| ensures EncodeEntry(ExampleFilters[i]) == ExampleStored[i] {
      assert i == 0 || i == 1 || i == 2 || i == 3;
    }
    EncodesEntrywise(ExampleFilters, ExampleStored);
  }

  /** Decoding the test case's stored list gives its filters. */
  lemma ExampleDecodes()
    ensures Decode(Some(ExampleStored)) == Success(ExampleFilters)
  {
    ExampleEncodes();
    assert forall f | f in ExampleFilters :: f.material in Items && Storable(f);
    DecodeEncode(ExampleFilters);
  }
}
