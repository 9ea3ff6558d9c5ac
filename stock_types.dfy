/**
 * The stock-type registry (src/lib/stores/stockTypes.ts): the cross-sections a piece can be
 * cut from. Each action of the store is modelled as the pure reducer it hands to the store
 * cell: it takes the current list and returns the next one. The store cell, localStorage and
 * JSON parsing are not modelled; a stored list that could be parsed arrives as `Some(list)`.
 */
module StockTypes {
  import opened Wrappers
  import Seqs

  datatype StockType = StockType(id: string, name: string, width: int, height: int, isDefault: bool)

  /** The seven built-in cross-sections, in the order the registry lists them. */
  const DefaultStockTypes: seq<StockType> := [
    StockType("1", "45×45", 45, 45, true),
    StockType("2", "45×70", 45, 70, true),
    StockType("3", "45×95", 45, 95, true),
    StockType("4", "45×145", 45, 145, true),
    StockType("5", "45×195", 45, 195, true),
    StockType("6", "45×220", 45, 220, true),
    StockType("7", "70×70", 70, 70, true)
  ]

  lemma DefaultsAreDefault()
    ensures forall i :: 0 <= i < |DefaultStockTypes| ==> DefaultStockTypes[i].isDefault
  {
  }

  function IsDefault(t: StockType): bool { t.isDefault }

  function IsCustom(t: StockType): bool { !t.isDefault }

  /** The filter test `type => type.id !== id`. */
  function OtherId(id: string): StockType -> bool { (t: StockType) => t.id != id }

  /** The start-up list: the defaults, then the stored entries that are not marked default. */
  function InitialStockTypes(stored: Option<seq<StockType>>): (r: seq<StockType>)
    ensures |r| >= |DefaultStockTypes| && r[..|DefaultStockTypes|] == DefaultStockTypes
    ensures forall i :: |DefaultStockTypes| <= i < |r| ==> !r[i].isDefault
    ensures stored.None? ==> r == DefaultStockTypes
    ensures stored.Some? ==> Seqs.Filter(IsCustom, r) == Seqs.Filter(IsCustom, stored.value)
  {
    match stored
    case None => DefaultStockTypes
    case Some(parsed) =>
      var custom := Seqs.Filter(IsCustom, parsed);
      Seqs.FilterNone(IsCustom, DefaultStockTypes);
      Seqs.FilterConcat(IsCustom, DefaultStockTypes, custom);
      Seqs.FilterIdempotent(IsCustom, parsed);
      DefaultStockTypes + custom
  }

  /** `add`: one new custom entry at the end. */
  function Add(types: seq<StockType>, id: string, name: string, width: int, height: int): (r: seq<StockType>)
    ensures |r| == |types| + 1 && r[..|types|] == types
    ensures r[|types|] == StockType(id, name, width, height, false)
  {
    types + [StockType(id, name, width, height, false)]
  }

  /** The index of the first entry at or after `k` with the id, if any. */
  function FirstIndexFrom(types: seq<StockType>, id: string, k: nat): (r: Option<nat>)
    requires k <= |types|
    ensures r.Some? ==> k <= r.value < |types| && types[r.value].id == id
                        && forall j :: k <= j < r.value ==> types[j].id != id
    ensures r.None? ==> forall j :: k <= j < |types| ==> types[j].id != id
    decreases |types| - k
  {
    if k == |types| then None
    else if types[k].id == id then Some(k)
    else FirstIndexFrom(types, id, k + 1)
  }

  /** `types.find(t => t.id === id)`: the first entry with the id, if any. */
  function FindById(types: seq<StockType>, id: string): (r: Option<StockType>)
    ensures r.None? <==> forall i :: 0 <= i < |types| ==> types[i].id != id
    ensures r.Some? ==> r.value.id == id && r.value in types
    ensures r.Some? ==> exists k :: 0 <= k < |types| && types[k] == r.value
                                    && forall j :: 0 <= j < k ==> types[j].id != id
  {
    match FirstIndexFrom(types, id, 0)
    case None => None
    case Some(i) => Some(types[i])
  }

  /** `remove`: refused when the first entry with the id is a default; otherwise drops every entry with the id. */
  function Remove(types: seq<StockType>, id: string): (r: seq<StockType>)
    ensures forall i :: 0 <= i < |r| ==> r[i] in types
    ensures FindById(types, id).Some? && FindById(types, id).value.isDefault ==> r == types
    ensures !(FindById(types, id).Some? && FindById(types, id).value.isDefault) ==>
              (forall i :: 0 <= i < |r| ==> r[i].id != id)
              && forall i :: 0 <= i < |types| && types[i].id != id ==> types[i] in r
  {
    var found := FindById(types, id);
    if found.Some? && found.value.isDefault then types
    else
      Seqs.FilterMembers(OtherId(id), types);
      Seqs.Filter(OtherId(id), types)
  }

  /** `reset`: only the entries marked default remain. */
  function Reset(types: seq<StockType>): (r: seq<StockType>)
    ensures forall i :: 0 <= i < |r| ==> r[i].isDefault && r[i] in types
    ensures forall i :: 0 <= i < |types| && types[i].isDefault ==> types[i] in r
  {
    Seqs.FilterMembers(IsDefault, types);
    Seqs.Filter(IsDefault, types)
  }

  /**
   * Removal keeps order: when no default entry carries the id, removing it from a list is
   * removing it from each part of the list.
   */
  lemma RemoveSplits(front: seq<StockType>, back: seq<StockType>, id: string)
    requires forall i :: 0 <= i < |front + back| && (front + back)[i].id == id ==> !(front + back)[i].isDefault
    ensures Remove(front + back, id) == Remove(front, id) + Remove(back, id)
  {
    var all := front + back;
    forall i | 0 <= i < |front| && front[i].id == id
      ensures !front[i].isDefault
    {
      assert all[i] == front[i];
    }
    forall i | 0 <= i < |back| && back[i].id == id
      ensures !back[i].isDefault
    {
      assert all[|front| + i] == back[i];
    }
    Seqs.FilterConcat(OtherId(id), front, back);
  }

  /** Removing an id that no entry carries is a no-op. */
  lemma RemoveAbsent(types: seq<StockType>, id: string)
    requires forall i :: 0 <= i < |types| ==> types[i].id != id
    ensures Remove(types, id) == types
  {
    Seqs.FilterAll(OtherId(id), types);
  }

  /** Removing a custom entry keeps the others in order: the entries before and after it survive as they were. */
  lemma RemoveCustomSplits(before: seq<StockType>, t: StockType, after: seq<StockType>)
    requires !t.isDefault
    requires forall i :: 0 <= i < |before| ==> before[i].id != t.id
    requires forall i :: 0 <= i < |after| ==> after[i].id != t.id
    ensures Remove(before + [t] + after, t.id) == before + after
  {
    var types := before + [t] + after;
    FirstIsCustom(before, t, after);
    assert Remove(types, t.id) == Seqs.Filter(OtherId(t.id), types);
    FilterAroundId(before, t, after);
  }

  lemma FirstIsCustom(before: seq<StockType>, t: StockType, after: seq<StockType>)
    requires !t.isDefault
    requires forall i :: 0 <= i < |before| ==> before[i].id != t.id
    ensures FindById(before + [t] + after, t.id) == Some(t)
  {
    var types := before + [t] + after;
    assert types[|before|] == t;
    assert forall j :: 0 <= j < |before| ==> types[j] == before[j];
  }

  lemma FilterAroundId(before: seq<StockType>, t: StockType, after: seq<StockType>)
    requires forall i :: 0 <= i < |before| ==> before[i].id != t.id
    requires forall i :: 0 <= i < |after| ==> after[i].id != t.id
    ensures Seqs.Filter(OtherId(t.id), before + [t] + after) == before + after
  {
    var keep := OtherId(t.id);
    assert !keep(t);
    assert forall i :: 0 <= i < |before| ==> keep(before[i]);
    assert forall i :: 0 <= i < |after| ==> keep(after[i]);
    Seqs.FilterAll(keep, before);
    Seqs.FilterAll(keep, after);
    Seqs.FilterNone(keep, [t]);
    Seqs.FilterConcat(keep, before, [t]);
    assert Seqs.Filter(keep, before + [t]) == before;
    Seqs.FilterConcat(keep, before + [t], after);
  }

  /** A type that was just added can be removed again, restoring the list. */
  lemma AddThenRemove(types: seq<StockType>, id: string, name: string, width: int, height: int)
    requires forall i :: 0 <= i < |types| ==> types[i].id != id
    ensures Remove(Add(types, id, name, width, height), id) == types
  {
    RemoveCustomSplits(types, StockType(id, name, width, height, false), []);
    assert types + [StockType(id, name, width, height, false)] + [] == Add(types, id, name, width, height);
    assert types + [] == types;
  }

  /** Removing the same id twice is the same as removing it once. */
  lemma RemoveIdempotent(types: seq<StockType>, id: string)
    ensures Remove(Remove(types, id), id) == Remove(types, id)
  {
    var r := Remove(types, id);
    var found := FindById(types, id);
    if !(found.Some? && found.value.isDefault) {
      RemoveAbsent(r, id);
    }
  }

  /** `reset` keeps order: resetting a list is resetting each part of it. */
  lemma ResetSplits(a: seq<StockType>, b: seq<StockType>)
    ensures Reset(a + b) == Reset(a) + Reset(b)
  {
    Seqs.FilterConcat(IsDefault, a, b);
  }

  /** `reset` is idempotent. */
  lemma ResetIdempotent(types: seq<StockType>)
    ensures Reset(Reset(types)) == Reset(types)
  {
    Seqs.FilterIdempotent(IsDefault, types);
  }

  /** Adding a custom type and then resetting is the same as resetting. */
  lemma ResetForgetsAdd(types: seq<StockType>, id: string, name: string, width: int, height: int)
    ensures Reset(Add(types, id, name, width, height)) == Reset(types)
  {
    var t := StockType(id, name, width, height, false);
    Seqs.FilterConcat(IsDefault, types, [t]);
    Seqs.FilterNone(IsDefault, [t]);
    assert Seqs.Filter(IsDefault, types) + [] == Seqs.Filter(IsDefault, types);
  }

  /** Whatever was stored, resetting the start-up list gives exactly the seven defaults. */
  lemma ResetInitial(stored: Option<seq<StockType>>)
    ensures Reset(InitialStockTypes(stored)) == DefaultStockTypes
  {
    DefaultsAreDefault();
    Seqs.FilterAll(IsDefault, DefaultStockTypes);
    if stored.Some? {
      var custom := Seqs.Filter(IsCustom, stored.value);
      Seqs.FilterConcat(IsDefault, DefaultStockTypes, custom);
      Seqs.FilterNone(IsDefault, custom);
      assert DefaultStockTypes + [] == DefaultStockTypes;
    }
  }

  /** A default type cannot be removed while it is the first entry with its id. */
  lemma DefaultsSurviveRemove(types: seq<StockType>, id: string, i: nat)
    requires i < |DefaultStockTypes| <= |types| && types[..|DefaultStockTypes|] == DefaultStockTypes
    requires DefaultStockTypes[i].id == id
    ensures Remove(types, id) == types
  {
    assert types[i] == DefaultStockTypes[i];
    var k := FirstIndexFrom(types, id, 0).value;
    assert k <= i;
    assert types[k] == DefaultStockTypes[k];
    DefaultsAreDefault();
  }
}
