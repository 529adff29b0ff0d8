/**
 * The fixed table of planetary materials and their rarities, with the
 * case-insensitive lookups `Materials.by_name`, `Materials.by_symbol`, the
 * rarity filter `Materials.by_rarity` and the id lookup `Materials.by_id`.
 */
module Catalog {
  import opened Wrappers
  import opened Strings

  /** A rarity grade. Two rarities are the same grade when their ids agree. */
  datatype Rarity = Rarity(rarityId: int, description: string, labelColor: string)

  /** A planetary material. Two materials are the same material when their ids agree. */
  datatype Material = Material(name: string, materialId: int, symbol: string, rarity: Rarity)

  /** `Rarity.__eq__`: equality by id. */
  predicate SameRarity(a: Rarity, b: Rarity)
  {
    a.rarityId == b.rarityId
  }

  /** `Material.__eq__`: equality by id. */
  predicate SameMaterial(a: Material, b: Material)
  {
    a.materialId == b.materialId
  }

  const VeryCommon := Rarity(1, "Very Common", "#5bc0de")
  const Common := Rarity(2, "Common", "#62c462")
  const Rare := Rarity(3, "Rare", "#f89406")
  const VeryRare := Rarity(4, "Very Rare", "#ee5f5b")

  /** The four grades. */
  const Rarities: seq<Rarity> := [VeryCommon, Common, Rare, VeryRare]

  const Antimony := Material("Antimony", 1, "Sb", VeryRare)
  const Arsenic := Material("Arsenic", 2, "As", Common)
  const Cadmium := Material("Cadmium", 3, "Cd", Rare)
  const Carbon := Material("Carbon", 4, "C", VeryCommon)
  const Chromium := Material("Chromium", 5, "Cr", Common)
  const Germanium := Material("Germanium", 6, "Ge", Common)
  const Iron := Material("Iron", 7, "Fe", VeryCommon)
  const Manganese := Material("Manganese", 8, "Mn", Common)
  const Mercury := Material("Mercury", 9, "Hg", Rare)
  const Molybdenum := Material("Molybdenum", 10, "Mo", Rare)
  const Nickel := Material("Nickel", 11, "Ni", VeryCommon)
  const Niobium := Material("Niobium", 12, "Nb", Rare)
  const Phosphorus := Material("Phosphorus", 13, "P", VeryCommon)
  const Polonium := Material("Polonium", 14, "Po", VeryRare)
  const Ruthenium := Material("Ruthenium", 15, "Ru", VeryRare)
  const Selenium := Material("Selenium", 16, "Se", Common)
  const Sulphur := Material("Sulphur", 17, "S", VeryCommon)
  const Technetium := Material("Technetium", 18, "Tc", VeryRare)
  const Tellurium := Material("Tellurium", 19, "Te", VeryRare)
  const Tin := Material("Tin", 20, "Sn", Rare)
  const Tungsten := Material("Tungsten", 21, "W", Rare)
  const Vanadium := Material("Vanadium", 22, "V", Common)
  const Yttrium := Material("Yttrium", 23, "Y", VeryRare)
  const Zinc := Material("Zinc", 24, "Zn", Common)
  const Zirconium := Material("Zirconium", 25, "Zr", Common)
  const Rhenium := Material("Rhenium", 26, "Re", VeryCommon)
  const Lead := Material("Lead", 27, "Pb", VeryCommon)
  const Boron := Material("Boron", 28, "B", Common)

  /**
   * `Materials.items()`: every material, in the order in which class
   * introspection lists the constants, that is by constant name.
   */
  const Items: seq<Material> := [
    Antimony, Arsenic, Boron, Cadmium, Carbon, Chromium, Germanium, Iron, Lead, Manganese,
    Mercury, Molybdenum, Nickel, Niobium, Phosphorus, Polonium, Rhenium, Ruthenium, Selenium, Sulphur,
    Technetium, Tellurium, Tin, Tungsten, Vanadium, Yttrium, Zinc, Zirconium
  ]

  // ---------------------------------------------------------------------------
  // Shape of the table
  //
  // `IsRow`, the integer keys `SymbolKey`/`NamePrefixKey`, `SymbolKeyRow` and
  // `NameKeys` below are proof scaffolding only: they let the distinctness of
  // the 28 names and symbols be proved row by row instead of pair by pair.
  // ---------------------------------------------------------------------------

  /** An index of the table, spelled out so that a proof can go through the rows one by one. */
  predicate IsRow(i: int)
  {
    i == 0 || i == 1 || i == 2 || i == 3 || i == 4 || i == 5 || i == 6 || i == 7 || i == 8 || i == 9
    || i == 10 || i == 11 || i == 12 || i == 13 || i == 14 || i == 15 || i == 16 || i == 17 || i == 18
    || i == 19 || i == 20 || i == 21 || i == 22 || i == 23 || i == 24 || i == 25 || i == 26 || i == 27
  }

  /** The table has 28 materials, their ids are 1 to 28 and no two share an id. */
  lemma CatalogIds()
    ensures |Items| == 28
    ensures forall i | 0 <= i < |Items| :: 1 <= Items[i].materialId <= 28
    ensures forall i, j | 0 <= i < j < |Items| :: Items[i].materialId != Items[j].materialId
  {
    forall i | 0 <= i < |Items| ensures 1 <= Items[i].materialId <= 28 {
      assert IsRow(i);
    }
    forall i, j | 0 <= i < j < |Items| ensures Items[i].materialId != Items[j].materialId {
      assert IsRow(i) && IsRow(j);
    }
  }

  /** Every material has one of the four grades. */
  lemma CatalogRarities()
    ensures forall i | 0 <= i < |Items| :: Items[i].rarity in Rarities
  {
    forall i | 0 <= i < |Items| ensures Items[i].rarity in Rarities {
      assert IsRow(i);
    }
  }

  /** A symbol of one or two letters, ignoring case, as one number. */
  function SymbolKey(s: string): int
  {
    if |s| == 0 then 0
    else if |s| == 1 then LowerChar(s[0]) as int * 0x100
    else LowerChar(s[0]) as int * 0x100 + LowerChar(s[1]) as int
  }

  /** Symbols equal ignoring case have the same key. */
  lemma SymbolKeyIgnoresCase(a: string, b: string)
    requires Lower(a) == Lower(b)
    ensures SymbolKey(a) == SymbolKey(b)
  {
    if |a| >= 1 {
      assert Lower(a)[0] == LowerChar(a[0]) && Lower(b)[0] == LowerChar(b[0]);
    }
    if |a| >= 2 {
      assert Lower(a)[1] == LowerChar(a[1]) && Lower(b)[1] == LowerChar(b[1]);
    }
  }

  /** The row whose symbol has key `k`, or -1. */
  ghost function SymbolKeyRow(k: int): int
  {
    if k == 0x7362 then 0
    else if k == 0x6173 then 1
    else if k == 0x6200 then 2
    else if k == 0x6364 then 3
    else if k == 0x6300 then 4
    else if k == 0x6372 then 5
    else if k == 0x6765 then 6
    else if k == 0x6665 then 7
    else if k == 0x7062 then 8
    else if k == 0x6d6e then 9
    else if k == 0x6867 then 10
    else if k == 0x6d6f then 11
    else if k == 0x6e69 then 12
    else if k == 0x6e62 then 13
    else if k == 0x7000 then 14
    else if k == 0x706f then 15
    else if k == 0x7265 then 16
    else if k == 0x7275 then 17
    else if k == 0x7365 then 18
    else if k == 0x7300 then 19
    else if k == 0x7463 then 20
    else if k == 0x7465 then 21
    else if k == 0x736e then 22
    else if k == 0x7700 then 23
    else if k == 0x7600 then 24
    else if k == 0x7900 then 25
    else if k == 0x7a6e then 26
    else if k == 0x7a72 then 27
    else -1
  }

  /** Each row's symbol key leads back to that row. */
  lemma SymbolKeysLeadBack()
    ensures forall i | 0 <= i < |Items| :: SymbolKeyRow(SymbolKey(Items[i].symbol)) == i
  {
    forall i | 0 <= i < |Items| ensures SymbolKeyRow(SymbolKey(Items[i].symbol)) == i {
      assert IsRow(i);
    }
  }

  /** No two materials have symbols that are equal ignoring case. */
  lemma SymbolsDistinct()
    ensures forall i, j | 0 <= i < |Items| && 0 <= j < |Items| && i != j :: Lower(Items[i].symbol) != Lower(Items[j].symbol)
  {
    SymbolKeysLeadBack();
    forall i, j | 0 <= i < |Items| && 0 <= j < |Items| && Lower(Items[i].symbol) == Lower(Items[j].symbol)
      ensures i == j
    {
      SymbolKeyIgnoresCase(Items[i].symbol, Items[j].symbol);
    }
  }

  /** The first three letters of a name, ignoring case, as one number. */
  function NamePrefixKey(s: string): int
  {
    if |s| < 3 then 0
    else LowerChar(s[0]) as int * 0x1_0000 + LowerChar(s[1]) as int * 0x100 + LowerChar(s[2]) as int
  }

  /** Names equal ignoring case have the same prefix key. */
  lemma NamePrefixKeyIgnoresCase(a: string, b: string)
    requires Lower(a) == Lower(b)
    ensures NamePrefixKey(a) == NamePrefixKey(b)
  {
    if |a| >= 3 {
      assert Lower(a)[0] == LowerChar(a[0]) && Lower(b)[0] == LowerChar(b[0]);
      assert Lower(a)[1] == LowerChar(a[1]) && Lower(b)[1] == LowerChar(b[1]);
      assert Lower(a)[2] == LowerChar(a[2]) && Lower(b)[2] == LowerChar(b[2]);
    }
  }

  /** Keys that grow from each row to the next grow from any row to any later one. */
  lemma {:induction false} AscendingKeys(keys: seq<int>, i: int, j: int)
    requires forall k | 0 <= k < |keys| - 1 :: keys[k] < keys[k + 1]
    requires 0 <= i < j < |keys|
    ensures keys[i] < keys[j]
    decreases j - i
  {
    if i + 1 < j {
      AscendingKeys(keys, i + 1, j);
    }
  }

  /** The prefix keys of the names, row by row: they grow, since the table is in name order. */
  ghost const NameKeys: seq<int> := [
    0x616e74, 0x617273, 0x626f72, 0x636164, 0x636172, 0x636872, 0x676572, 0x69726f, 0x6c6561, 0x6d616e,
    0x6d6572, 0x6d6f6c, 0x6e6963, 0x6e696f, 0x70686f, 0x706f6c, 0x726865, 0x727574, 0x73656c, 0x73756c,
    0x746563, 0x74656c, 0x74696e, 0x74756e, 0x76616e, 0x797474, 0x7a696e, 0x7a6972
  ]

  /** The table's name keys are the list above. */
  lemma NameKeysOfTable()
    ensures |NameKeys| == |Items|
    ensures forall i | 0 <= i < |Items| :: NamePrefixKey(Items[i].name) == NameKeys[i]
  {
    forall i | 0 <= i < |Items| ensures NamePrefixKey(Items[i].name) == NameKeys[i] {
      assert IsRow(i);
    }
  }

  /** Names whose prefix keys grow from row to row are distinct ignoring case. */
  lemma AscendingNamesDistinct(ms: seq<Material>, keys: seq<int>)
    requires |keys| == |ms| && forall i | 0 <= i < |ms| :: NamePrefixKey(ms[i].name) == keys[i]
    requires forall k | 0 <= k < |keys| - 1 :: keys[k] < keys[k + 1]
    ensures forall i, j | 0 <= i < |ms| && 0 <= j < |ms| && i != j :: Lower(ms[i].name) != Lower(ms[j].name)
  {
    forall i, j | 0 <= i < |ms| && 0 <= j < |ms| && i != j
      ensures Lower(ms[i].name) != Lower(ms[j].name)
    {
      if i < j { AscendingKeys(keys, i, j); } else { AscendingKeys(keys, j, i); }
      if Lower(ms[i].name) == Lower(ms[j].name) {
        NamePrefixKeyIgnoresCase(ms[i].name, ms[j].name);
      }
    }
  }

  /** No two materials have names that are equal ignoring case. */
  lemma NamesDistinct()
    ensures forall i, j | 0 <= i < |Items| && 0 <= j < |Items| && i != j :: Lower(Items[i].name) != Lower(Items[j].name)
  {
    NameKeysOfTable();
    AscendingNamesDistinct(Items, NameKeys);
  }

  // ---------------------------------------------------------------------------
  // Lookups
  // ---------------------------------------------------------------------------

  /** `m` answers a lookup by name `n`: `str(m.name).lower() == str(n).lower()`. */
  predicate NameIs(m: Material, n: string)
  {
    Lower(m.name) == Lower(n)
  }

  /** `m` answers a lookup by symbol `s`, ignoring case. */
  predicate SymbolIs(m: Material, s: string)
  {
    Lower(m.symbol) == Lower(s)
  }

  /** The first material of `ms` whose name is `n` ignoring case: the loop of `Materials.by_name`. */
  function FindByName(ms: seq<Material>, n: string): (r: Option<Material>)
    ensures r.None? <==> forall i | 0 <= i < |ms| :: !NameIs(ms[i], n)
    ensures r.Some? ==> r.value in ms && NameIs(r.value, n)
  {
    if ms == [] then None
    else if NameIs(ms[0], n) then Some(ms[0])
    else
      assert forall i | 1 <= i < |ms| :: ms[i] == ms[1..][i - 1];
      FindByName(ms[1..], n)
  }

  /** The search finds the first material that answers it. */
  lemma {:induction false} FindByNameFirst(ms: seq<Material>, n: string, i: nat)
    requires i < |ms| && NameIs(ms[i], n)
    requires forall j | 0 <= j < i :: !NameIs(ms[j], n)
    ensures FindByName(ms, n) == Some(ms[i])
  {
    if i > 0 {
      var rest := ms[1..];
      assert !NameIs(ms[0], n);
      assert rest[i - 1] == ms[i];
      assert forall j | 0 <= j < i - 1 :: rest[j] == ms[j + 1];
      FindByNameFirst(rest, n, i - 1);
    }
  }

  /** The first material of `ms` whose symbol is `s` ignoring case: the loop of `Materials.by_symbol`. */
  function FindBySymbol(ms: seq<Material>, s: string): (r: Option<Material>)
    ensures r.None? <==> forall i | 0 <= i < |ms| :: !SymbolIs(ms[i], s)
    ensures r.Some? ==> r.value in ms && SymbolIs(r.value, s)
  {
    if ms == [] then None
    else if SymbolIs(ms[0], s) then Some(ms[0])
    else
      assert forall i | 1 <= i < |ms| :: ms[i] == ms[1..][i - 1];
      FindBySymbol(ms[1..], s)
  }

  /** The search finds the first material that answers it. */
  lemma {:induction false} FindBySymbolFirst(ms: seq<Material>, s: string, i: nat)
    requires i < |ms| && SymbolIs(ms[i], s)
    requires forall j | 0 <= j < i :: !SymbolIs(ms[j], s)
    ensures FindBySymbol(ms, s) == Some(ms[i])
  {
    if i > 0 {
      var rest := ms[1..];
      assert !SymbolIs(ms[0], s);
      assert rest[i - 1] == ms[i];
      assert forall j | 0 <= j < i - 1 :: rest[j] == ms[j + 1];
      FindBySymbolFirst(rest, s, i - 1);
    }
  }

  /** `Materials.by_name`: the catalog material called `n`, ignoring case, or `None`. */
  function ByName(n: string): (r: Option<Material>)
    ensures r.Some? ==> r.value in Items && NameIs(r.value, n)
    ensures r.None? <==> forall m | m in Items :: !NameIs(m, n)
  {
    FindByName(Items, n)
  }

  /** `Materials.by_symbol`: the catalog material with symbol `s`, ignoring case, or `None`. */
  function BySymbol(s: string): (r: Option<Material>)
    ensures r.Some? ==> r.value in Items && SymbolIs(r.value, s)
    ensures r.None? <==> forall m | m in Items :: !SymbolIs(m, s)
  {
    FindBySymbol(Items, s)
  }

  /** Since names are distinct ignoring case, `by_name` finds exactly the material with that name. */
  lemma ByNameExact(n: string, m: Material)
    ensures ByName(n) == Some(m) <==> m in Items && NameIs(m, n)
  {
    if m in Items && NameIs(m, n) {
      NamesDistinct();
      var i :| 0 <= i < |Items| && Items[i] == m;
      var r := ByName(n);
      var k :| 0 <= k < |Items| && Items[k] == r.value;
      assert Lower(Items[k].name) == Lower(Items[i].name);
    }
  }

  /** Since symbols are distinct ignoring case, `by_symbol` finds exactly the material with that symbol. */
  lemma BySymbolExact(s: string, m: Material)
    ensures BySymbol(s) == Some(m) <==> m in Items && SymbolIs(m, s)
  {
    if m in Items && SymbolIs(m, s) {
      SymbolsDistinct();
      var i :| 0 <= i < |Items| && Items[i] == m;
      var r := BySymbol(s);
      var k :| 0 <= k < |Items| && Items[k] == r.value;
      assert Lower(Items[k].symbol) == Lower(Items[i].symbol);
    }
  }

  /** Every catalog material is found by its own name and by its own symbol, in any case. */
  lemma LookupsFindMembers(m: Material)
    requires m in Items
    ensures ByName(m.name) == Some(m) && ByName(Lower(m.name)) == Some(m)
    ensures BySymbol(m.symbol) == Some(m) && BySymbol(Lower(m.symbol)) == Some(m)
  {
    LowerIdempotent(m.name);
    LowerIdempotent(m.symbol);
    ByNameExact(m.name, m);
    ByNameExact(Lower(m.name), m);
    BySymbolExact(m.symbol, m);
    BySymbolExact(Lower(m.symbol), m);
  }

  /** `Materials.item_names`: the names of all materials, in catalog order. */
  function ItemNames(): (names: seq<string>)
    ensures |names| == |Items|
    ensures forall i | 0 <= i < |Items| :: names[i] == Items[i].name
    ensures forall i | 0 <= i < |Items| :: ByName(names[i]) == Some(Items[i])
  {
    var names := seq(|Items|, i requires 0 <= i < |Items| => Items[i].name);
    forall i | 0 <= i < |Items| ensures ByName(names[i]) == Some(Items[i]) {
      LookupsFindMembers(Items[i]);
    }
    names
  }

  // ---------------------------------------------------------------------------
  // Rarity filter
  // ---------------------------------------------------------------------------

  /** `xs` is `ys` with some elements left out and the rest in their order. */
  ghost predicate IsSubsequence<T>(xs: seq<T>, ys: seq<T>)
    decreases |ys|
  {
    xs == [] ||
    (ys != [] && if xs[0] == ys[0] then IsSubsequence(xs[1..], ys[1..]) else IsSubsequence(xs, ys[1..]))
  }

  /** A subsequence stays one when both lists grow by the same last element, or only the longer one does. */
  lemma {:induction false} SubsequenceSnoc<T>(xs: seq<T>, ys: seq<T>, y: T)
    requires IsSubsequence(xs, ys)
    ensures IsSubsequence(xs, ys + [y])
    ensures IsSubsequence(xs + [y], ys + [y])
    decreases |ys|
  {
    if ys == [] {
      assert xs == [];
      assert ([y] + [])[1..] == [];
    } else {
      assert (ys + [y])[1..] == ys[1..] + [y];
      if xs == [] {
        assert IsSubsequence([], ys[1..]);
        SubsequenceSnoc([], ys[1..], y);
        assert [] + [y] == [y];
      } else if xs[0] == ys[0] {
        SubsequenceSnoc(xs[1..], ys[1..], y);
        assert (xs + [y])[1..] == xs[1..] + [y];
      } else {
        SubsequenceSnoc(xs, ys[1..], y);
      }
    }
  }

  /** The materials of `ms` of grade `r`, in their order in `ms`. */
  function WithRarity(ms: seq<Material>, r: Rarity): (rs: seq<Material>)
    ensures forall m :: m in rs <==> m in ms && SameRarity(m.rarity, r)
    ensures IsSubsequence(rs, ms)
  {
    if ms == [] then []
    else if SameRarity(ms[0].rarity, r) then [ms[0]] + WithRarity(ms[1..], r)
    else WithRarity(ms[1..], r)
  }

  /** `Materials.by_rarity`: the materials of grade `r`, in catalog order. */
  function ByRarity(r: Rarity): (rs: seq<Material>)
    ensures forall m :: m in rs <==> m in Items && SameRarity(m.rarity, r)
    ensures IsSubsequence(rs, Items)
  {
    var rs := WithRarity(Items, r);
    assert forall m :: m in rs <==> m in Items && SameRarity(m.rarity, r);
    rs
  }

  /** Over materials whose grade is one of the four, the four rarity filters split the list. */
  lemma {:induction false} WithRarityCounts(ms: seq<Material>)
    requires forall m | m in ms :: m.rarity in Rarities
    ensures |WithRarity(ms, VeryCommon)| + |WithRarity(ms, Common)| + |WithRarity(ms, Rare)|
            + |WithRarity(ms, VeryRare)| == |ms|
  {
    if ms != [] {
      assert ms[0] in ms;
      WithRarityCounts(ms[1..]);
    }
  }

  /** Over materials whose grade is one of the four, every material is under its own grade and under no other. */
  lemma WithRarityPartition(ms: seq<Material>)
    requires forall m | m in ms :: m.rarity in Rarities
    ensures forall m | m in ms :: exists r | r in Rarities :: m in WithRarity(ms, r)
    ensures forall m, i, j | 0 <= i < j < |Rarities| :: !(m in WithRarity(ms, Rarities[i]) && m in WithRarity(ms, Rarities[j]))
  {
    forall m | m in ms ensures exists r | r in Rarities :: m in WithRarity(ms, r) {
      assert m.rarity in Rarities && m in WithRarity(ms, m.rarity);
    }
    forall m, i, j | 0 <= i < j < |Rarities|
      ensures !(m in WithRarity(ms, Rarities[i]) && m in WithRarity(ms, Rarities[j]))
    {
      assert Rarities[i].rarityId == i + 1 && Rarities[j].rarityId == j + 1;
    }
  }

  /**
   * The four grades partition the catalog: every material is listed under
   * exactly one of them, which is why the settings dialog, drawing one frame
   * per grade, shows every material once.
   */
  lemma RaritiesPartitionCatalog()
    ensures forall m | m in Items :: exists r | r in Rarities :: m in ByRarity(r)
    ensures forall m, i, j | 0 <= i < j < |Rarities| :: !(m in ByRarity(Rarities[i]) && m in ByRarity(Rarities[j]))
    ensures |ByRarity(VeryCommon)| + |ByRarity(Common)| + |ByRarity(Rare)| + |ByRarity(VeryRare)| == |Items|
  {
    CatalogRarities();
    assert forall m | m in Items :: m.rarity in Rarities by {
      forall m | m in Items ensures m.rarity in Rarities {
        var k :| 0 <= k < |Items| && Items[k] == m;
      }
    }
    WithRarityPartition(Items);
    WithRarityCounts(Items);
  }

  /** In a list whose ids are pairwise different, equality by id is plain equality. */
  lemma DistinctIdsIdentify(ms: seq<Material>)
    requires forall i, j | 0 <= i < j < |ms| :: ms[i].materialId != ms[j].materialId
    ensures forall a, b | a in ms && b in ms :: SameMaterial(a, b) <==> a == b
  {
    forall a, b | a in ms && b in ms && SameMaterial(a, b) ensures a == b {
      var i :| 0 <= i < |ms| && ms[i] == a;
      var j :| 0 <= j < |ms| && ms[j] == b;
      assert !(i < j) && !(j < i);
    }
  }

  /** Among the four grades, equality by id is plain equality. */
  lemma RarityIdEquality()
    ensures forall a, b | a in Rarities && b in Rarities :: SameRarity(a, b) <==> a == b
  {
    forall a, b | a in Rarities && b in Rarities && SameRarity(a, b) ensures a == b {
      var i :| 0 <= i < |Rarities| && Rarities[i] == a;
      var j :| 0 <= j < |Rarities| && Rarities[j] == b;
      assert Rarities[i].rarityId == i + 1 && Rarities[j].rarityId == j + 1;
    }
  }

  /** Among the four grades, and among catalog materials, equality by id is plain equality. */
  lemma IdEqualityIsEquality()
    ensures forall a, b | a in Rarities && b in Rarities :: SameRarity(a, b) <==> a == b
    ensures forall a, b | a in Items && b in Items :: SameMaterial(a, b) <==> a == b
  {
    RarityIdEquality();
    CatalogIds();
    DistinctIdsIdentify(Items);
  }

  // ---------------------------------------------------------------------------
  // Lookup by id
  // ---------------------------------------------------------------------------

  /** The exception that `Materials.by_id` raises: a material has no attribute `material_id`. */
  datatype AttributeError = AttributeError(attribute: string)

  /**
   * `Materials.by_id` as written: its loop reads `material.material_id`, an
   * attribute no material has, so the first iteration raises.
   */
  function ByIdAsWritten(materialId: int): Result<Option<Material>, AttributeError>
  {
    if Items == [] then Success(None) else Failure(AttributeError("material_id"))
  }

  /** The first material of `ms` with id `id`. */
  function FindById(ms: seq<Material>, id: int): (r: Option<Material>)
    ensures r.None? <==> forall i | 0 <= i < |ms| :: ms[i].materialId != id
    ensures r.Some? ==> r.value in ms && r.value.materialId == id
  {
    if ms == [] then None
    else if ms[0].materialId == id then Some(ms[0])
    else FindById(ms[1..], id)
  }

  /** `Materials.by_id` reading the attribute materials do have, `materialId`. */
  function ById(materialId: int): (r: Option<Material>)
    ensures r.Some? ==> r.value in Items && r.value.materialId == materialId
    ensures r.None? <==> forall m | m in Items :: m.materialId != materialId
  {
    FindById(Items, materialId)
  }

  /** Where ids are pairwise different, the id search finds exactly the material with that id. */
  lemma FindByIdExact(ms: seq<Material>, id: int, m: Material)
    requires forall i, j | 0 <= i < j < |ms| :: ms[i].materialId != ms[j].materialId
    ensures FindById(ms, id) == Some(m) <==> m in ms && m.materialId == id
  {
    if m in ms && m.materialId == id {
      var r := FindById(ms, id);
      assert r.Some?;
      DistinctIdsIdentify(ms);
      assert SameMaterial(r.value, m);
    }
  }

  /** The corrected lookup finds each material by its id and nothing outside 1 to 28. */
  lemma ByIdExact(materialId: int, m: Material)
    ensures ById(materialId) == Some(m) <==> m in Items && m.materialId == materialId
    ensures !(1 <= materialId <= 28) ==> ById(materialId) == None
  {
    CatalogIds();
    FindByIdExact(Items, materialId, m);
    if !(1 <= materialId <= 28) {
      assert forall i | 0 <= i < |Items| :: Items[i].materialId != materialId;
    }
  }

  /** `by_id(1)` raises where the corrected lookup answers Antimony. */
  lemma ByIdAsWrittenRaises()
    ensures forall id :: ByIdAsWritten(id).Failure?
    ensures ById(1) == Some(Antimony)
  {
    ByIdExact(1, Antimony);
  }
}
