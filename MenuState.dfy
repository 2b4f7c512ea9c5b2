/**
 * The state of the menu editor (admin/src/hooks/useMenuState.js): the three flat
 * entity maps and the children map, copies of the maps as loaded, and the map of
 * tracked changes from which the badge shown on each entity is computed.
 */
module MenuState {
  import opened Wrappers
  import opened OrderedMaps
  import opened MenuDataUtils

  /** The kind of change tracked for a hierarchical ID: 'create', 'edit' or 'delete'. */
  datatype ChangeType = Create | Edit | Delete

  /** `hasRealChanges()`: the tracking map is not empty. */
  function HasRealChanges(changes: OrderedMap<ChangeType>): bool {
    changes.Size() > 0
  }

  lemma HasRealChangesIff(changes: OrderedMap<ChangeType>)
    requires changes.Valid()
    ensures HasRealChanges(changes) <==> changes.values != map[]
  {
    SizeIsCardinality(changes);
  }

  /** Some tracked ID lies strictly below `h`. */
  predicate ChildChanged(changes: OrderedMap<ChangeType>, h: string) {
    exists k :: k in changes.keys && IsDescendantOf(k, h)
  }

  /** `calculateVisualState(hierarchicalId, currentState)`: the badge of an entity. */
  function VisualState(changes: OrderedMap<ChangeType>, h: string, current: State): (r: State)
    ensures current == New ==> r == New
    ensures current != New && changes.Get(h) == Some(Delete) ==> r == Deleted
    ensures current != New && (changes.Get(h) == Some(Edit) || changes.Get(h) == Some(Create)) ==> r == Edited
    ensures current != New && h !in changes.values ==>
      (r == Edited <==> ChildChanged(changes, h)) && (r == Normal <==> !ChildChanged(changes, h))
    ensures r == Deleted ==> changes.Get(h) == Some(Delete)
  {
    if current == New then New
    else if h in changes.values && changes.values[h] == Delete then Deleted
    else if h in changes.values && (changes.values[h] == Edit || changes.values[h] == Create) then Edited
    else if ChildChanged(changes, h) then Edited
    else Normal
  }

  /**
   * Every parent of a tracked ID that is neither new nor tracked itself shows as edited:
   * a change to an item marks its subcategory and its category.
   */
  lemma TrackedMarksAncestors(changes: OrderedMap<ChangeType>, k: string, current: State)
    requires k in changes.keys
    ensures forall p :: p in ParentIds(k) && p !in changes.values && current != New ==>
      VisualState(changes, p, current) == Edited
  {
    ParentIdsAreAncestors(k);
    forall p | p in ParentIds(k) && p !in changes.values && current != New
      ensures VisualState(changes, p, current) == Edited
    {
      var j :| 0 <= j < |ParentIds(k)| && ParentIds(k)[j] == p;
      assert IsDescendantOf(k, p);
    }
  }

  /** The entity stored at `k` with its `_state` replaced by its badge. */
  function Enrich(changes: OrderedMap<ChangeType>, k: string, e: Entity): Entity {
    e.(state := VisualState(changes, k, e.state))
  }

  /**
   * A copy of the first `n` entries of `m`, each with its badge, inserted in the
   * order of `m`.
   */
  function EnrichPrefix(changes: OrderedMap<ChangeType>, m: OrderedMap<Entity>, n: nat): (r: OrderedMap<Entity>)
    requires m.Valid() && n <= |m.keys|
    ensures r.Valid() && r.keys == m.keys[..n]
  {
    if n == 0 then Empty()
    else
      var last := m.keys[n - 1];
      DistinctNewAt(m.keys, n);
      assert m.keys[..n - 1] + [last] == m.keys[..n];
      EnrichPrefix(changes, m, n - 1).Set(last, Enrich(changes, last, m.values[last]))
  }

  /** Each copied entry is the entry of `m` with its badge. */
  lemma {:induction false} EnrichPrefixValues(changes: OrderedMap<ChangeType>, m: OrderedMap<Entity>, n: nat)
    requires m.Valid() && n <= |m.keys|
    ensures var r := EnrichPrefix(changes, m, n);
      forall k :: k in r.values ==> k in m.values && r.values[k] == Enrich(changes, k, m.values[k])
  {
    if n > 0 {
      EnrichPrefixValues(changes, m, n - 1);
      var last := m.keys[n - 1];
      var prev := EnrichPrefix(changes, m, n - 1).values;
      var r := EnrichPrefix(changes, m, n).values;
      assert r == prev[last := Enrich(changes, last, m.values[last])];
      forall k | k in r ensures k in m.values && r[k] == Enrich(changes, k, m.values[k]) {
        if k != last {
          assert k in prev;
        }
      }
    }
  }

  lemma EnrichPrefixNext(changes: OrderedMap<ChangeType>, m: OrderedMap<Entity>, i: nat, state: State)
    requires m.Valid() && i < |m.keys|
    requires state == VisualState(changes, m.keys[i], m.values[m.keys[i]].state)
    ensures EnrichPrefix(changes, m, i + 1)
      == EnrichPrefix(changes, m, i).Set(m.keys[i], m.values[m.keys[i]].(state := state))
  {
  }

  /** `enrichWithVisualState` on one map: every entry with its badge, in the order of `m`. */
  function Enriched(changes: OrderedMap<ChangeType>, m: OrderedMap<Entity>): (r: OrderedMap<Entity>)
    requires m.Valid()
    ensures r.Valid() && r.keys == m.keys
  {
    EnrichPrefix(changes, m, |m.keys|)
  }

  /** An enriched map has the keys of the map and changes nothing but `_state`, which becomes the badge. */
  lemma EnrichedChangesOnlyState(changes: OrderedMap<ChangeType>, m: OrderedMap<Entity>)
    requires m.Valid()
    ensures var r := Enriched(changes, m);
      r.values.Keys == m.values.Keys
      && forall k :: k in r.values ==>
        r.values[k].state == VisualState(changes, k, m.values[k].state)
        && r.values[k].(state := m.values[k].state) == m.values[k]
  {
    EnrichPrefixValues(changes, m, |m.keys|);
  }

  /** A snapshot of the hook's state. */
  datatype Menu = Menu(
    categories: OrderedMap<Entity>, subcategories: OrderedMap<Entity>, items: OrderedMap<Entity>,
    children: map<string, seq<string>>,
    originalCategories: map<string, Entity>, originalSubcategories: map<string, Entity>,
    originalItems: map<string, Entity>,
    changes: OrderedMap<ChangeType>)
  {
    ghost predicate Valid() {
      categories.Valid() && subcategories.Valid() && items.Valid() && changes.Valid()
    }
  }

  /** The state right after a load: the flat maps, their copies as the originals, no tracked changes. */
  function LoadedMenu(f: FlatMenu): (r: Menu)
    ensures f.Valid() ==> r.Valid()
    ensures r.originalCategories == r.categories.values && r.originalSubcategories == r.subcategories.values
      && r.originalItems == r.items.values && r.changes.keys == []
  {
    Menu(f.categories, f.subcategories, f.items, f.children,
      f.categories.values, f.subcategories.values, f.items.values, Empty())
  }

  class MenuState {
    var categories: OrderedMap<Entity>
    var subcategories: OrderedMap<Entity>
    var items: OrderedMap<Entity>
    var children: map<string, seq<string>>
    var originalCategories: map<string, Entity>
    var originalSubcategories: map<string, Entity>
    var originalItems: map<string, Entity>
    var changes: OrderedMap<ChangeType>

    ghost predicate Valid()
      reads this
    {
      Snapshot().Valid()
    }

    function Snapshot(): Menu
      reads this
    {
      Menu(categories, subcategories, items, children, originalCategories, originalSubcategories, originalItems, changes)
    }

    /** The initial state: every map empty. */
    constructor ()
      ensures Valid()
      ensures Snapshot() == Menu(Empty(), Empty(), Empty(), map[], map[], map[], map[], Empty())
    {
      categories := Empty();
      subcategories := Empty();
      items := Empty();
      children := map[];
      originalCategories := map[];
      originalSubcategories := map[];
      originalItems := map[];
      changes := Empty();
    }

    /**
     * The effect that loads the menu: non-empty backend data wins; otherwise the mock data
     * is used once loading has finished without error. The loaded menu is flattened, its
     * maps are copied as the originals and the tracking map is cleared.
     */
    method Load(backendData: seq<MenuCategory>, loading: bool, error: bool, mockData: Option<seq<MenuCategory>>)
      modifies this
      ensures var data := if |backendData| > 0 then Some(backendData) else if !loading && !error then mockData else None;
        if data.None? then Snapshot() == old(Snapshot())
        else Valid() && Snapshot() == LoadedMenu(Flatten(data.value))
    {
      var dataToUse := if |backendData| > 0 then Some(backendData)
        else if !loading && !error then mockData else None;
      if dataToUse.Some? {
        var flattened := FlattenMenuData(dataToUse.value);
        FlattenValid(dataToUse.value);
        SetState(LoadedMenu(flattened));
      }
    }

    /** The setters of every piece of state called together. */
    method SetState(s: Menu)
      modifies this
      ensures Snapshot() == s
    {
      categories, subcategories, items, children := s.categories, s.subcategories, s.items, s.children;
      originalCategories, originalSubcategories, originalItems := s.originalCategories,
        s.originalSubcategories, s.originalItems;
      changes := s.changes;
    }

    /** `trackChange(hierarchicalId, type)`. */
    method TrackChange(h: string, t: ChangeType)
      modifies this
      ensures Snapshot() == old(Snapshot()).(changes := old(changes).Set(h, t))
      ensures old(Valid()) ==> Valid()
    {
      changes := changes.Set(h, t);
    }

    /** `untrackChange(hierarchicalId)`. */
    method UntrackChange(h: string)
      modifies this
      ensures Snapshot() == old(Snapshot()).(changes := old(changes).Delete(h))
      ensures old(Valid()) ==> Valid()
    {
      changes := changes.Delete(h);
    }

    /** `hasChildChanges(hierarchicalId)`: a scan of the tracked IDs. */
    method HasChildChanges(h: string) returns (r: bool)
      ensures r == ChildChanged(changes, h)
    {
      var i := 0;
      while i < |changes.keys|
        invariant 0 <= i <= |changes.keys|
        invariant forall j :: 0 <= j < i ==> !IsDescendantOf(changes.keys[j], h)
      {
        if IsDescendantOf(changes.keys[i], h) {
          return true;
        }
        i := i + 1;
      }
      return false;
    }

    /** `calculateVisualState(hierarchicalId, currentState)`, scanning the tracked IDs when needed. */
    method CalculateVisualState(h: string, current: State) returns (state: State)
      ensures state == VisualState(changes, h, current)
    {
      if current == New {
        return New;
      }
      if h in changes.values {
        var changeType := changes.values[h];
        if changeType == Delete {
          return Deleted;
        }
        if changeType == Edit || changeType == Create {
          return Edited;
        }
      }
      var childChanged := HasChildChanges(h);
      if childChanged {
        return Edited;
      }
      return Normal;
    }

    /** `enrichWithVisualState()`: a copy of each entity map with every `_state` replaced by its badge. */
    method EnrichWithVisualState() returns (enrichedCategories: OrderedMap<Entity>,
      enrichedSubcategories: OrderedMap<Entity>, enrichedItems: OrderedMap<Entity>)
      requires Valid()
      ensures enrichedCategories == Enriched(changes, categories)
      ensures enrichedSubcategories == Enriched(changes, subcategories)
      ensures enrichedItems == Enriched(changes, items)
    {
      enrichedItems := EnrichMap(items);
      enrichedSubcategories := EnrichMap(subcategories);
      enrichedCategories := EnrichMap(categories);
    }

    /** One `forEach` of `enrichWithVisualState`. */
    method EnrichMap(m: OrderedMap<Entity>) returns (enriched: OrderedMap<Entity>)
      requires m.Valid()
      ensures enriched == Enriched(changes, m)
    {
      enriched := Empty();
      for i := 0 to |m.keys|
        invariant enriched == EnrichPrefix(changes, m, i)
      {
        enriched := EnrichEntry(m, i, enriched);
      }
    }

    /** One call of the `forEach` callback: the `i`-th entry of `m` with its badge. */
    method EnrichEntry(m: OrderedMap<Entity>, i: nat, enriched: OrderedMap<Entity>) returns (next: OrderedMap<Entity>)
      requires m.Valid() && i < |m.keys| && enriched == EnrichPrefix(changes, m, i)
      ensures next == EnrichPrefix(changes, m, i + 1)
    {
      var h := m.keys[i];
      var state := CalculateVisualState(h, m.values[h].state);
      EnrichPrefixNext(changes, m, i, state);
      next := enriched.Set(h, m.values[h].(state := state));
    }
  }
}
