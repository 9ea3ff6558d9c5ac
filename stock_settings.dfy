/**
 * The stock-length settings (src/lib/stores/stockSettings.ts): the catalogue of bar lengths
 * that can be bought, `minLength, minLength + increment, ...` up to `maxLength`, together with
 * the default saw kerf and the unit. The store cell and localStorage are not modelled: `update`
 * and `reset` are the values they put into the cell.
 */
module StockSettings {
  import opened Wrappers

  datatype Settings = Settings(minLength: int, maxLength: int, increment: int, defaultKerf: int, unit: string)

  /** A `Partial<StockSettings>`: a field is `Some` when the caller supplied it. */
  datatype SettingsPatch = SettingsPatch(
    minLength: Option<int>, maxLength: Option<int>, increment: Option<int>,
    defaultKerf: Option<int>, unit: Option<string>)

  const DefaultSettings := Settings(2700, 5400, 300, 3, "mm")

  const NoChanges := SettingsPatch(None, None, None, None, None)

  function Pick<T>(supplied: Option<T>, current: T): T {
    if supplied.Some? then supplied.value else current
  }

  /** `{ ...current, ...settings }`: the supplied fields win, the others are kept. */
  function Update(current: Settings, patch: SettingsPatch): (r: Settings)
    ensures patch.minLength.Some? ==> r.minLength == patch.minLength.value
    ensures patch.minLength.None? ==> r.minLength == current.minLength
    ensures patch.maxLength.Some? ==> r.maxLength == patch.maxLength.value
    ensures patch.maxLength.None? ==> r.maxLength == current.maxLength
    ensures patch.increment.Some? ==> r.increment == patch.increment.value
    ensures patch.increment.None? ==> r.increment == current.increment
    ensures patch.defaultKerf.Some? ==> r.defaultKerf == patch.defaultKerf.value
    ensures patch.defaultKerf.None? ==> r.defaultKerf == current.defaultKerf
    ensures patch.unit.Some? ==> r.unit == patch.unit.value
    ensures patch.unit.None? ==> r.unit == current.unit
  {
    Settings(
      Pick(patch.minLength, current.minLength),
      Pick(patch.maxLength, current.maxLength),
      Pick(patch.increment, current.increment),
      Pick(patch.defaultKerf, current.defaultKerf),
      Pick(patch.unit, current.unit))
  }

  /** Two spreads in a row: the later patch wins field by field. */
  function Then(first: SettingsPatch, second: SettingsPatch): SettingsPatch {
    SettingsPatch(
      if second.minLength.Some? then second.minLength else first.minLength,
      if second.maxLength.Some? then second.maxLength else first.maxLength,
      if second.increment.Some? then second.increment else first.increment,
      if second.defaultKerf.Some? then second.defaultKerf else first.defaultKerf,
      if second.unit.Some? then second.unit else first.unit)
  }

  /** An empty patch changes nothing. */
  lemma UpdateNothing(current: Settings)
    ensures Update(current, NoChanges) == current
  {
  }

  /** Applying the same patch twice is applying it once. */
  lemma UpdateIdempotent(current: Settings, patch: SettingsPatch)
    ensures Update(Update(current, patch), patch) == Update(current, patch)
  {
  }

  /** Two updates in a row are one update with the combined patch. */
  lemma UpdateTwice(current: Settings, first: SettingsPatch, second: SettingsPatch)
    ensures Update(Update(current, first), second) == Update(current, Then(first, second))
  {
  }

  /** `reset`: the defaults, whatever the settings were. */
  function Reset(current: Settings): (r: Settings)
    ensures r.minLength == 2700 && r.maxLength == 5400 && r.increment == 300
    ensures r.defaultKerf == 3 && r.unit == "mm"
  {
    DefaultSettings
  }

  /**
   * The lengths `from, from + increment, ...` that do not exceed `maxLength`, as the loop of
   * `getAvailableLengths` produces them. The loop only stops when `increment > 0` or when it
   * does not start.
   */
  function LengthsFrom(from: int, maxLength: int, increment: int): (r: seq<int>)
    requires increment > 0 || from > maxLength
    ensures r == [] <==> from > maxLength
    decreases maxLength - from
  {
    if from > maxLength then [] else [from] + LengthsFrom(from + increment, maxLength, increment)
  }

  /**
   * The shape of the list: element `i` is `from + i * increment`, every element is at most
   * `maxLength`, the list is strictly ascending, and one more step would exceed `maxLength`,
   * so no admissible length is missing.
   */
  lemma {:induction false} LengthsFromShape(from: int, maxLength: int, increment: int)
    requires increment > 0 || from > maxLength
    ensures var r := LengthsFrom(from, maxLength, increment);
      && (r != [] ==> r[0] == from && r[|r| - 1] <= maxLength < r[|r| - 1] + increment)
      && (forall i :: 0 <= i < |r| ==> r[i] == from + i * increment && r[i] <= maxLength)
      && (forall i :: 0 <= i < |r| - 1 ==> r[i] < r[i + 1])
    decreases maxLength - from
  {
    if from <= maxLength {
      var rest := LengthsFrom(from + increment, maxLength, increment);
      LengthsFromShape(from + increment, maxLength, increment);
      var r := [from] + rest;
      forall i | 1 <= i < |r|
        ensures r[i] == from + i * increment
      {
        assert r[i] == rest[i - 1] == from + increment + (i - 1) * increment;
      }
    }
  }

  /** The catalogue of purchasable bar lengths. */
  function Catalogue(s: Settings): seq<int>
    requires s.increment > 0 || s.minLength > s.maxLength
  {
    LengthsFrom(s.minLength, s.maxLength, s.increment)
  }

  /** Ascending order of the catalogue, for any two positions. */
  lemma {:induction false} CatalogueAscending(s: Settings, i: int, j: int)
    requires s.increment > 0 || s.minLength > s.maxLength
    requires 0 <= i < j < |Catalogue(s)|
    ensures Catalogue(s)[i] < Catalogue(s)[j]
    decreases j - i
  {
    LengthsFromShape(s.minLength, s.maxLength, s.increment);
    if i + 1 < j {
      CatalogueAscending(s, i + 1, j);
    }
  }

  /** `getAvailableLengths`: the loop that pushes `minLength`, `minLength + increment`, ... */
  method AvailableLengths(s: Settings) returns (lengths: seq<int>)
    requires s.increment > 0 || s.minLength > s.maxLength
    ensures lengths == Catalogue(s)
  {
    lengths := [];
    var len := s.minLength;
    while len <= s.maxLength
      invariant s.increment > 0 || len > s.maxLength
      invariant lengths + LengthsFrom(len, s.maxLength, s.increment) == Catalogue(s)
      decreases s.maxLength - len
    {
      assert LengthsFrom(len, s.maxLength, s.increment)
          == [len] + LengthsFrom(len + s.increment, s.maxLength, s.increment);
      lengths := lengths + [len];
      len := len + s.increment;
    }
    assert lengths + [] == lengths;
  }

  /** After `reset` the catalogue is the ten lengths 2700, 3000, ..., 5400. */
  lemma ResetCatalogue(current: Settings)
    ensures Catalogue(Reset(current)) == [2700, 3000, 3300, 3600, 3900, 4200, 4500, 4800, 5100, 5400]
  {
    LengthsFromShape(2700, 5400, 300);
  }
}
