/**
 * The piece groups (src/lib/stores/groups.ts): named, coloured groups that hold the pieces to
 * cut. Each action is modelled as the reducer it hands to the store cell. Ids, creation
 * times and the random number behind the colour choice come from outside (`crypto`,
 * `Date.now`, `Math.random`) and are parameters here.
 */
module Groups {
  import opened Wrappers
  import Seqs
  import opened StockTypes

  /** A requested piece: `quantity` copies of `length`, cut with saw width `kerf` and spacing `margin`. */
  datatype Piece = Piece(
    id: string, length: int, stockType: StockType, quantity: int,
    kerf: int, margin: int, createdAt: int)

  datatype Group = Group(id: string, name: string, color: string, items: seq<Piece>, createdAt: int)

  /** A `Partial<Omit<Group, 'id' | 'createdAt'>>`: a field is `Some` when the caller supplied it. */
  datatype GroupPatch = GroupPatch(name: Option<string>, color: Option<string>, items: Option<seq<Piece>>)

  /** The eleven pastel colours new groups are painted with. */
  const PastelColors: seq<string> := [
    "#FF9AA2", "#FFB7B2", "#FFDAC1", "#E2F0CB", "#B5EAD7", "#C7CEEA",
    "#9ADCFF", "#FFC6FF", "#BDB2FF", "#A0C4FF", "#FDFFB6"
  ]

  /** How many of the latest groups' colours are avoided once the palette is exhausted: half the palette, rounded down. */
  const RecentN: nat := |PastelColors| / 2

  lemma PaletteDistinct()
    ensures |PastelColors| == 11
    ensures forall i, j :: 0 <= i < j < |PastelColors| ==> PastelColors[i] != PastelColors[j]
  {
  }

  /** `Math.floor(Math.random() * n)` for the random number `rand`, which lies in [0, 1). */
  function RandomIndex(rand: real, n: nat): (i: nat)
    requires 0.0 <= rand < 1.0 && n > 0
    ensures i < n
  {
    assert rand * (n as real) < n as real;
    (rand * (n as real)).Floor
  }

  /** `groups.map(group => group.color)`. */
  function Colors(groups: seq<Group>): (r: seq<string>)
    ensures |r| == |groups| && forall i :: 0 <= i < |groups| ==> r[i] == groups[i].color
  {
    seq(|groups|, i requires 0 <= i < |groups| => groups[i].color)
  }

  /** The filter test `color => !used.includes(color)`. */
  function NotIn(used: seq<string>): string -> bool { (c: string) => c !in used }

  /** `existingGroups.slice(-recentN).map(group => group.color)`: the colours of the latest groups. */
  function RecentColors(existing: seq<Group>): (r: seq<string>)
    ensures |r| == if |existing| < RecentN then |existing| else RecentN
    ensures forall i :: 0 <= i < |r| ==> r[i] == existing[|existing| - |r| + i].color
  {
    if |existing| < RecentN then Colors(existing) else Colors(existing[|existing| - RecentN..])
  }

  /** Fewer colours in use than the palette has: some palette colour is still free. */
  lemma SomeColourFree(used: seq<string>)
    requires |used| < |PastelColors|
    ensures Seqs.Filter(NotIn(used), PastelColors) != []
  {
    var free := Seqs.Filter(NotIn(used), PastelColors);
    Seqs.FilterMembers(NotIn(used), PastelColors);
    if free == [] {
      assert forall i :: 0 <= i < |PastelColors| ==> PastelColors[i] in used;
      PaletteDistinct();
      Seqs.Pigeonhole(PastelColors, used);
    }
  }

  /**
   * `getUniqueColor`: a palette colour. With fewer groups than colours it is one that no
   * group uses; otherwise it avoids the colours of the last `RecentN` groups when the palette
   * has one they do not use, and falls back to any palette colour when it has none.
   */
  function GetUniqueColor(existing: seq<Group>, rand: real): (c: string)
    requires 0.0 <= rand < 1.0
    ensures c in PastelColors
    ensures |existing| < |PastelColors| ==> c !in Colors(existing)
    ensures |existing| >= |PastelColors| && Seqs.Filter(NotIn(RecentColors(existing)), PastelColors) != []
            ==> c !in RecentColors(existing)
  {
    if |existing| < |PastelColors| then
      var used := Colors(existing);
      var available := Seqs.Filter(NotIn(used), PastelColors);
      SomeColourFree(used);
      Seqs.FilterMembers(NotIn(used), PastelColors);
      available[RandomIndex(rand, |available|)]
    else
      var recent := RecentColors(existing);
      var lessRecent := Seqs.Filter(NotIn(recent), PastelColors);
      Seqs.FilterMembers(NotIn(recent), PastelColors);
      if |lessRecent| > 0 then
        lessRecent[RandomIndex(rand, |lessRecent|)]
      else
        PastelColors[RandomIndex(rand, |PastelColors|)]
  }

  /** Once the palette is used up, the new colour still differs from those of the last five groups. */
  lemma RecentColoursAvoided(existing: seq<Group>, rand: real)
    requires 0.0 <= rand < 1.0
    requires |existing| >= |PastelColors|
    ensures forall i :: |existing| - RecentN <= i < |existing| ==> existing[i].color != GetUniqueColor(existing, rand)
  {
    SomeColourFree(RecentColors(existing));
  }

  /** `groups.add`: a new, empty group at the end, painted by `getUniqueColor`. */
  function AddGroup(groups: seq<Group>, id: string, name: string, rand: real, now: int): (r: seq<Group>)
    requires 0.0 <= rand < 1.0
    ensures |r| == |groups| + 1 && r[..|groups|] == groups
    ensures r[|groups|].id == id && r[|groups|].name == name && r[|groups|].items == []
    ensures r[|groups|].createdAt == now && r[|groups|].color in PastelColors
    ensures |groups| < |PastelColors| ==> forall i :: 0 <= i < |groups| ==> groups[i].color != r[|groups|].color
  {
    groups + [Group(id, name, GetUniqueColor(groups, rand), [], now)]
  }

  /** `{ ...group, ...updates }`: id and creation time are not part of an update. */
  function Merge(g: Group, u: GroupPatch): Group {
    Group(
      g.id,
      if u.name.Some? then u.name.value else g.name,
      if u.color.Some? then u.color.value else g.color,
      if u.items.Some? then u.items.value else g.items,
      g.createdAt)
  }

  const NoChanges := GroupPatch(None, None, None)

  /** `groups.update`: every group with the id takes the supplied fields; all others are untouched. */
  function UpdateGroup(groups: seq<Group>, id: string, u: GroupPatch): (r: seq<Group>)
    ensures |r| == |groups|
    ensures forall i :: 0 <= i < |groups| && groups[i].id != id ==> r[i] == groups[i]
    ensures forall i :: 0 <= i < |groups| && groups[i].id == id ==>
              r[i].id == id && r[i].createdAt == groups[i].createdAt
              && r[i].name == (if u.name.Some? then u.name.value else groups[i].name)
              && r[i].color == (if u.color.Some? then u.color.value else groups[i].color)
              && r[i].items == (if u.items.Some? then u.items.value else groups[i].items)
  {
    seq(|groups|, i requires 0 <= i < |groups| => if groups[i].id == id then Merge(groups[i], u) else groups[i])
  }

  /** An update with no fields leaves the list as it was. */
  lemma UpdateNothing(groups: seq<Group>, id: string)
    ensures UpdateGroup(groups, id, NoChanges) == groups
  {
  }

  /** Updating twice with the same fields is updating once. */
  lemma UpdateIdempotent(groups: seq<Group>, id: string, u: GroupPatch)
    ensures UpdateGroup(UpdateGroup(groups, id, u), id, u) == UpdateGroup(groups, id, u)
  {
  }

  /** The filter test `group => group.id !== id`. */
  function OtherGroup(id: string): Group -> bool { (g: Group) => g.id != id }

  /** `groups.remove`: the groups without the id, in their order. */
  function RemoveGroup(groups: seq<Group>, id: string): (r: seq<Group>)
    ensures forall i :: 0 <= i < |r| ==> r[i].id != id && r[i] in groups
    ensures forall i :: 0 <= i < |groups| && groups[i].id != id ==> groups[i] in r
  {
    Seqs.FilterMembers(OtherGroup(id), groups);
    Seqs.Filter(OtherGroup(id), groups)
  }

  /** A group that was just added can be removed again, restoring the list. */
  lemma AddThenRemoveGroup(groups: seq<Group>, id: string, name: string, rand: real, now: int)
    requires 0.0 <= rand < 1.0
    requires forall i :: 0 <= i < |groups| ==> groups[i].id != id
    ensures RemoveGroup(AddGroup(groups, id, name, rand, now), id) == groups
  {
    var keep := OtherGroup(id);
    var g := Group(id, name, GetUniqueColor(groups, rand), [], now);
    assert forall i :: 0 <= i < |groups| ==> keep(groups[i]);
    assert !keep(g);
    Seqs.FilterConcat(keep, groups, [g]);
    Seqs.FilterAll(keep, groups);
    Seqs.FilterNone(keep, [g]);
    assert groups + [] == groups;
  }

  /** Removing a group keeps the others in their order: removal commutes with splitting the list. */
  lemma RemoveGroupSplits(front: seq<Group>, back: seq<Group>, id: string)
    ensures RemoveGroup(front + back, id) == RemoveGroup(front, id) + RemoveGroup(back, id)
  {
    Seqs.FilterConcat(OtherGroup(id), front, back);
  }

  /** `groups.addItem`: the item goes to the end of the matching group's items; all else is untouched. */
  function AddItem(groups: seq<Group>, groupId: string, item: Piece): (r: seq<Group>)
    ensures |r| == |groups|
    ensures forall i :: 0 <= i < |groups| && groups[i].id != groupId ==> r[i] == groups[i]
    ensures forall i :: 0 <= i < |groups| && groups[i].id == groupId ==>
              r[i] == groups[i].(items := groups[i].items + [item])
  {
    seq(|groups|, i requires 0 <= i < |groups| =>
      if groups[i].id == groupId then groups[i].(items := groups[i].items + [item]) else groups[i])
  }

  /** The filter test `item => item.id !== itemId`. */
  function OtherItem(itemId: string): Piece -> bool { (p: Piece) => p.id != itemId }

  /** `groups.removeItem`: the matching group loses the items with the id, the rest keep their order. */
  function RemoveItem(groups: seq<Group>, groupId: string, itemId: string): (r: seq<Group>)
    ensures |r| == |groups|
    ensures forall i :: 0 <= i < |groups| && groups[i].id != groupId ==> r[i] == groups[i]
    ensures forall i :: 0 <= i < |groups| && groups[i].id == groupId ==>
              r[i] == groups[i].(items := Seqs.Filter(OtherItem(itemId), groups[i].items))
  {
    seq(|groups|, i requires 0 <= i < |groups| =>
      if groups[i].id == groupId then groups[i].(items := Seqs.Filter(OtherItem(itemId), groups[i].items)) else groups[i])
  }

  /** Removing an item that was just added restores the groups, when no item of that group already had its id. */
  lemma AddThenRemoveItem(groups: seq<Group>, groupId: string, item: Piece)
    requires forall i, j :: 0 <= i < |groups| && groups[i].id == groupId && 0 <= j < |groups[i].items|
               ==> groups[i].items[j].id != item.id
    ensures RemoveItem(AddItem(groups, groupId, item), groupId, item.id) == groups
  {
    var keep := OtherItem(item.id);
    var r := RemoveItem(AddItem(groups, groupId, item), groupId, item.id);
    forall i | 0 <= i < |groups| && groups[i].id == groupId
      ensures r[i] == groups[i]
    {
      var items := groups[i].items;
      assert forall j :: 0 <= j < |items| ==> keep(items[j]);
      assert !keep(item);
      Seqs.FilterConcat(keep, items, [item]);
      Seqs.FilterAll(keep, items);
      Seqs.FilterNone(keep, [item]);
      assert items + [] == items;
    }
  }
}
