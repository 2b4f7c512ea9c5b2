/**
 * The menu editor's add, update, delete, undo and move operations
 * (admin/src/hooks/useEntityOperations.js), one generic handler per operation for
 * the three entity types. Each handler is a pure transition of a `Menu` snapshot
 * and a method that makes the same changes to a `MenuState` field by field.
 */
module EntityOperations {
  import opened Wrappers
  import opened Strings
  import opened OrderedMaps
  import opened Sorting
  import opened Sequences
  import opened MenuDataUtils
  import opened MenuState

  datatype EntityType = CategoryType | SubcategoryType | ItemType

  datatype Direction = Up | Down

  /** The fields an edit form passes to `handleUpdate`; None is a field left out of `updates`. */
  datatype Updates = Updates(nameKey: Option<Value>, descriptionKey: Option<Value>, price: Option<Value>,
    available: Option<Value>)

  // ---------------------------------------------------------------------------
  // The entity-type configuration
  // ---------------------------------------------------------------------------

  function TempIdPrefix(t: EntityType): string {
    match t
    case CategoryType => "temp-category-"
    case SubcategoryType => "temp-subcategory-"
    case ItemType => "temp-item-"
  }

  /** The key of an entity of type `t` in its map. */
  function HierarchicalId(t: EntityType, entityId: Id, parentId: Id, categoryId: Id): (r: Id)
    ensures Truthy(entityId) ==> r.Some?
  {
    match t
    case CategoryType => BuildHierarchicalId(entityId, None, None)
    case SubcategoryType => BuildHierarchicalId(parentId, entityId, None)
    case ItemType => BuildHierarchicalId(categoryId, parentId, entityId)
  }

  /** The key of the parent whose child list holds an entity of type `t`; categories have none. */
  function ParentHId(t: EntityType, parentId: Id, categoryId: Id): (r: Id)
    ensures t == CategoryType ==> r.None?
  {
    match t
    case CategoryType => None
    case SubcategoryType => BuildHierarchicalId(parentId, None, None)
    case ItemType => BuildHierarchicalId(categoryId, parentId, None)
  }

  /** `map.get(key)` for a key that may be null. */
  function Lookup<V>(m: map<string, V>, key: Id): (r: Option<V>)
    ensures r.Some? <==> key.Some? && key.value in m
    ensures r.Some? ==> r.value == m[key.value]
  {
    if key.Some? && key.value in m then Some(m[key.value]) else None
  }

  /** `childrenMap.get(key) || []`. */
  function ChildList(children: map<string, seq<string>>, key: Id): (r: seq<string>)
    ensures r != [] ==> key.Some? && key.value in children && r == children[key.value]
  {
    match Lookup(children, key)
    case Some(list) => list
    case None => []
  }

  /** `getDefaultEntity(id, orderIndex, parentId, categoryId)`. */
  function DefaultEntity(t: EntityType, id: string, orderIndex: int, parentId: Id, categoryId: Id): (r: Entity)
    ensures r.id == id && r.orderIndex == orderIndex && r.state == New && r.previousState.None?
    ensures r.nameKey == Str("")
  {
    match t
    case CategoryType =>
      Entity(id, None, None, Str(""), Undefined, Undefined, Undefined, orderIndex, Undefined, Undefined, New, None)
    case SubcategoryType =>
      Entity(id, parentId, None, Str(""), Undefined, Undefined, Undefined, orderIndex, Undefined, Undefined, New, None)
    case ItemType =>
      Entity(id, parentId, categoryId, Str(""), Str(""), Str(""), Bool(true), orderIndex, Undefined, Undefined, New, None)
  }

  function MapOf(m: Menu, t: EntityType): OrderedMap<Entity> {
    match t
    case CategoryType => m.categories
    case SubcategoryType => m.subcategories
    case ItemType => m.items
  }

  function OriginalOf(m: Menu, t: EntityType): map<string, Entity> {
    match t
    case CategoryType => m.originalCategories
    case SubcategoryType => m.originalSubcategories
    case ItemType => m.originalItems
  }

  /** The snapshot with the entity map of type `t` replaced: what the type's setter does. */
  function WithMap(m: Menu, t: EntityType, em: OrderedMap<Entity>): (r: Menu)
    ensures MapOf(r, t) == em
    ensures forall u :: u != t ==> MapOf(r, u) == MapOf(m, u)
    ensures r.children == m.children && r.changes == m.changes
    ensures forall u :: OriginalOf(r, u) == OriginalOf(m, u)
  {
    match t
    case CategoryType => m.(categories := em)
    case SubcategoryType => m.(subcategories := em)
    case ItemType => m.(items := em)
  }

  // ---------------------------------------------------------------------------
  // handleAdd
  // ---------------------------------------------------------------------------

  /** The ID minted for a new entity from the clock reading `now`. */
  function NewEntityId(t: EntityType, now: nat): (r: string)
    ensures IsTempId(r) && r != ""
  {
    TempIdPrefix(t) + NatToString(now)
  }

  /** The key of the entity `handleAdd` creates. */
  function AddedHId(t: EntityType, parentId: Id, categoryId: Id, now: nat): string {
    HierarchicalId(t, Some(NewEntityId(t, now)), parentId, categoryId).value
  }

  /** The orderIndex of a new entity: the number of its future siblings. */
  function NextOrderIndex(m: Menu, t: EntityType, parentId: Id, categoryId: Id): nat {
    if t == CategoryType then m.categories.Size() else |ChildList(m.children, ParentHId(t, parentId, categoryId))|
  }

  /** `handleAdd(entityType, parentId, categoryId)` at time `now`: the new state and the new entity's ID. */
  function Add(m: Menu, t: EntityType, parentId: Id, categoryId: Id, now: nat): (r: (Menu, string))
    ensures m.Valid() ==> r.0.Valid()
  {
    var newEntityId := NewEntityId(t, now);
    var h := AddedHId(t, parentId, categoryId, now);
    var parentHId := ParentHId(t, parentId, categoryId);
    var entity := DefaultEntity(t, newEntityId, NextOrderIndex(m, t, parentId, categoryId), parentId, categoryId);
    var m1 := WithMap(m, t, MapOf(m, t).Set(h, entity));
    var m2 := if Truthy(parentHId) then m1.(children := m1.children[parentHId.value := ChildList(m1.children, parentHId) + [h]]) else m1;
    var m3 := if t == ItemType then m2.(changes := m2.changes.Set(h, Create)) else m2;
    (m3, newEntityId)
  }

  // ---------------------------------------------------------------------------
  // handleUpdate
  // ---------------------------------------------------------------------------

  /** `{ ...entity, ...updates }`. */
  function Merge(e: Entity, u: Updates): Entity {
    e.(nameKey := u.nameKey.GetOr(e.nameKey), descriptionKey := u.descriptionKey.GetOr(e.descriptionKey),
       price := u.price.GetOr(e.price), available := u.available.GetOr(e.available))
  }

  /** Undefined and null compare as the empty string. */
  function NormalizeEmpty(v: Value): (r: Value)
    ensures r != Undefined && r != Null
  {
    if v == Undefined || v == Null then Str("") else v
  }

  /** Whether the compared fields (the name, and for items the description, price and availability) match the original. */
  predicate MatchesOriginal(t: EntityType, original: Entity, updated: Entity) {
    NormalizeEmpty(original.nameKey) == NormalizeEmpty(updated.nameKey)
    && (t == ItemType ==>
          NormalizeEmpty(original.descriptionKey) == NormalizeEmpty(updated.descriptionKey)
          && NormalizeEmpty(original.price) == NormalizeEmpty(updated.price)
          && NormalizeEmpty(original.available) == NormalizeEmpty(updated.available))
  }

  /** `updates.nameKey && updates.nameKey.trim().length > 0`. */
  predicate HasContent(u: Updates) {
    u.nameKey.Some? && u.nameKey.value.Str? && Trim(u.nameKey.value.s) != ""
  }

  /** The IDs `handleUpdate` and `handleUndoDelete` insist on: a subcategory needs its parent, an item both. */
  predicate HasRequiredIds(t: EntityType, parentId: Id, categoryId: Id) {
    match t
    case CategoryType => true
    case SubcategoryType => Truthy(parentId)
    case ItemType => Truthy(categoryId) && Truthy(parentId)
  }

  /** `handleUpdate(entityType, entityId, updates, parentId, categoryId)`. */
  function Update(m: Menu, t: EntityType, entityId: Id, u: Updates, parentId: Id, categoryId: Id): (r: Menu)
    ensures m.Valid() ==> r.Valid()
  {
    if !HasRequiredIds(t, parentId, categoryId) then m
    else
      var h := HierarchicalId(t, entityId, parentId, categoryId);
      match Lookup(MapOf(m, t).values, h)
      case None => m
      case Some(entity) =>
        var isNew := entity.state == New;
        var updated := Merge(entity, u);
        var original := Lookup(OriginalOf(m, t), h);
        if !isNew && original.Some? && MatchesOriginal(t, original.value, updated) then
          var m1 := WithMap(m, t, MapOf(m, t).Set(h.value, updated.(state := Normal)));
          m1.(changes := m1.changes.Delete(h.value))
        else
          var m1 := WithMap(m, t, MapOf(m, t).Set(h.value, updated.(state := if isNew then New else Edited)));
          if !isNew then m1.(changes := m1.changes.Set(h.value, Edit))
          else if HasContent(u) && t != CategoryType then m1.(changes := m1.changes.Set(h.value, Create))
          else m1
  }

  // ---------------------------------------------------------------------------
  // handleDelete (the confirmed deletion)
  // ---------------------------------------------------------------------------

  /** The body of `onConfirm` in `handleDelete(entityType, entityId, parentId, categoryId)`. */
  function DeleteEntity(m: Menu, t: EntityType, entityId: Id, parentId: Id, categoryId: Id): (r: Menu)
    ensures m.Valid() ==> r.Valid()
  {
    var h := HierarchicalId(t, entityId, parentId, categoryId);
    var parentHId := ParentHId(t, parentId, categoryId);
    match Lookup(MapOf(m, t).values, h)
    case None => m
    case Some(entity) =>
      if entity.state == New then
        var m1 := WithMap(m, t, MapOf(m, t).Delete(h.value));
        var m2 :=
          if Truthy(parentHId) then
            m1.(children := m1.children[parentHId.value := Filter(ChildList(m1.children, parentHId), (x: string) => x != h.value)])
          else m1.(children := m1.children - {h.value});
        m2.(changes := m2.changes.Delete(h.value))
      else
        var m1 := WithMap(m, t, MapOf(m, t).Set(h.value, entity.(previousState := Some(entity.state), state := Deleted)));
        m1.(changes := m1.changes.Set(h.value, Delete))
  }

  // ---------------------------------------------------------------------------
  // handleUndoDelete
  // ---------------------------------------------------------------------------

  /** `handleUndoDelete(entityType, entityId, parentId, categoryId)` as written: the tracked change is dropped. */
  function UndoDeleteAsWritten(m: Menu, t: EntityType, entityId: Id, parentId: Id, categoryId: Id): (r: Menu)
    ensures m.Valid() ==> r.Valid()
  {
    if !HasRequiredIds(t, parentId, categoryId) then m
    else
      var h := HierarchicalId(t, entityId, parentId, categoryId);
      match Lookup(MapOf(m, t).values, h)
      case None => m
      case Some(entity) =>
        var m1 := WithMap(m, t, MapOf(m, t).Set(h.value, entity.(state := entity.previousState.GetOr(Normal), previousState := None)));
        m1.(changes := m1.changes.Delete(h.value))
  }

  /**
   * `handleUndoDelete` as intended: the entity gets back the state it had before the
   * deletion, and an entity that goes back to 'edited' gets back its 'edit' tracking.
   */
  function UndoDelete(m: Menu, t: EntityType, entityId: Id, parentId: Id, categoryId: Id): (r: Menu)
    ensures m.Valid() ==> r.Valid()
  {
    if !HasRequiredIds(t, parentId, categoryId) then m
    else
      var h := HierarchicalId(t, entityId, parentId, categoryId);
      match Lookup(MapOf(m, t).values, h)
      case None => m
      case Some(entity) =>
        var restored := entity.previousState.GetOr(Normal);
        var m1 := WithMap(m, t, MapOf(m, t).Set(h.value, entity.(state := restored, previousState := None)));
        if restored == Edited then m1.(changes := m1.changes.Set(h.value, Edit))
        else m1.(changes := m1.changes.Delete(h.value))
  }

  // ---------------------------------------------------------------------------
  // handleMove
  // ---------------------------------------------------------------------------

  /** `list.indexOf(x)`, with -1 when absent. */
  function IndexIn(list: seq<string>, x: Id): (r: int)
    ensures -1 <= r < |list|
    ensures r >= 0 ==> x.Some? && list[r] == x.value && forall j :: 0 <= j < r ==> list[j] != x.value
    ensures r == -1 ==> x.None? || x.value !in list
  {
    if x.None? || x.value !in list then -1 else FirstIndexOf(list, x.value)
  }

  function FirstIndexOf(list: seq<string>, x: string): (i: nat)
    requires x in list
    ensures i < |list| && list[i] == x && forall j :: 0 <= j < i ==> list[j] != x
  {
    if list[0] == x then 0 else 1 + FirstIndexOf(list[1..], x)
  }

  /** `itemsList.findIndex(([hId]) => hId === hierarchicalId)`. */
  function FindEntry(list: seq<(string, Entity)>, x: Id): (r: int)
    ensures -1 <= r < |list|
    ensures r >= 0 ==> x.Some? && list[r].0 == x.value && forall j :: 0 <= j < r ==> list[j].0 != x.value
    ensures r == -1 ==> forall j :: 0 <= j < |list| ==> x.None? || list[j].0 != x.value
  {
    if list == [] || x.None? then -1
    else if list[0].0 == x.value then 0
    else
      var k := FindEntry(list[1..], x);
      if k == -1 then -1 else k + 1
  }

  function TargetIndex(index: int, d: Direction): int {
    if d == Up then index - 1 else index + 1
  }

  /** An entity that took part in a move: its new orderIndex, and 'edited' unless it is new. */
  function Moved(e: Entity, orderIndex: int): Entity {
    e.(orderIndex := orderIndex, state := if e.state != New then Edited else e.state)
  }

  /** `list` with the entries at `i` and `j` exchanged. */
  function Swap<T>(list: seq<T>, i: nat, j: nat): (r: seq<T>)
    requires i < |list| && j < |list|
    ensures |r| == |list| && r[i] == list[j] && r[j] == list[i]
    ensures forall k :: 0 <= k < |list| && k != i && k != j ==> r[k] == list[k]
  {
    list[i := list[j]][j := list[i]]
  }

  /** The categories in display order: the entries sorted by orderIndex. */
  function CategoryList(m: Menu): seq<(string, Entity)>
    requires m.categories.Valid()
  {
    Sort(m.categories.Entries(), ByOrderIndex)
  }

  /**
   * `handleMove(entityType, entityId, direction, parentId, categoryId)`. A category that is
   * not in the map, moved down, makes the source throw before anything is stored; the
   * state is then unchanged, as it is here.
   */
  function Move(m: Menu, t: EntityType, entityId: Id, d: Direction, parentId: Id, categoryId: Id): (r: Menu)
    requires m.categories.Valid()
    ensures m.Valid() ==> r.Valid()
  {
    var h := HierarchicalId(t, entityId, parentId, categoryId);
    if t == CategoryType then MoveCategory(m, h, d)
    else MoveChild(m, t, h, d, ParentHId(t, parentId, categoryId))
  }

  /** A category moves within the categories sorted by orderIndex; only orderIndex values change. */
  function MoveCategory(m: Menu, h: Id, d: Direction): (r: Menu)
    requires m.categories.Valid()
    ensures m.Valid() ==> r.Valid()
  {
    var list := CategoryList(m);
    var index := FindEntry(list, h);
    var target := TargetIndex(index, d);
    if target < 0 || target >= |list| || index < 0 then m
    else
      var (currentHId, current) := list[index];
      var (targetHId, targetEntity) := list[target];
      m.(categories := m.categories
        .Set(currentHId, Moved(current, targetEntity.orderIndex))
        .Set(targetHId, Moved(targetEntity, current.orderIndex)))
  }

  /** A subcategory or item moves within its parent's child list, which is reordered too. */
  function MoveChild(m: Menu, t: EntityType, h: Id, d: Direction, parentHId: Id): (r: Menu)
    ensures m.Valid() ==> r.Valid()
  {
    var list := ChildList(m.children, parentHId);
    var index := IndexIn(list, h);
    var target := TargetIndex(index, d);
    if target < 0 || target >= |list| || index < 0 then m
    else
      var currentHId := list[index];
      var targetHId := list[target];
      var em := MapOf(m, t);
      if currentHId !in em.values || targetHId !in em.values then m
      else
        var current := em.values[currentHId];
        var targetEntity := em.values[targetHId];
        var m1 := WithMap(m, t, em
          .Set(currentHId, Moved(current, targetEntity.orderIndex))
          .Set(targetHId, Moved(targetEntity, current.orderIndex)));
        m1.(children := m1.children[parentHId.value := Swap(list, index, target)])
  }

  // ---------------------------------------------------------------------------
  // Properties of the handlers
  // ---------------------------------------------------------------------------

  /**
   * A new subcategory or item goes to the end of its parent's child list, its orderIndex is
   * the number of siblings it had, it is 'new', and only items are tracked, as 'create'.
   */
  lemma AddAppendsChild(m: Menu, t: EntityType, parentId: Id, categoryId: Id, now: nat)
    requires t != CategoryType && Truthy(ParentHId(t, parentId, categoryId))
    ensures var r := Add(m, t, parentId, categoryId, now).0;
      var p := ParentHId(t, parentId, categoryId).value;
      var h := AddedHId(t, parentId, categoryId, now);
      var siblings := ChildList(m.children, Some(p));
      p in r.children && r.children[p] == siblings + [h]
      && h in MapOf(r, t).values && MapOf(r, t).values[h].orderIndex == |siblings|
      && MapOf(r, t).values[h].state == New
      && r.changes == (if t == ItemType then m.changes.Set(h, Create) else m.changes)
  {
    var r := Add(m, t, parentId, categoryId, now).0;
    var h := AddedHId(t, parentId, categoryId, now);
    assert MapOf(r, t).values[h] == DefaultEntity(t, NewEntityId(t, now), NextOrderIndex(m, t, parentId, categoryId), parentId, categoryId);
  }

  /**
   * A new category goes to the end of the categories map with the map's size as its
   * orderIndex; the children and the tracking map are untouched.
   */
  lemma AddAppendsCategory(m: Menu, parentId: Id, categoryId: Id, now: nat)
    requires NewEntityId(CategoryType, now) !in m.categories.values
    ensures var r := Add(m, CategoryType, parentId, categoryId, now);
      var h := r.1;
      r.0.categories.keys == m.categories.keys + [h]
      && r.0.categories.values[h].orderIndex == m.categories.Size()
      && r.0.categories.values[h].state == New
      && r.0.children == m.children && r.0.changes == m.changes
      && r.0.subcategories == m.subcategories && r.0.items == m.items
  {
    var h := NewEntityId(CategoryType, now);
    assert AddedHId(CategoryType, parentId, categoryId, now) == h;
  }

  /** Without the parent IDs it needs, an update changes nothing. */
  lemma UpdateNeedsIds(m: Menu, t: EntityType, entityId: Id, u: Updates, parentId: Id, categoryId: Id)
    requires !HasRequiredIds(t, parentId, categoryId)
    ensures Update(m, t, entityId, u, parentId, categoryId) == m
  {
  }

  /**
   * An update of an existing entity that brings the compared fields back to their loaded
   * values (null and undefined comparing as '') makes it 'normal' and untracks it.
   */
  lemma UpdateBackToOriginal(m: Menu, t: EntityType, entityId: Id, u: Updates, parentId: Id, categoryId: Id)
    requires HasRequiredIds(t, parentId, categoryId)
    requires var h := HierarchicalId(t, entityId, parentId, categoryId);
      var e := Lookup(MapOf(m, t).values, h);
      var o := Lookup(OriginalOf(m, t), h);
      e.Some? && e.value.state != New && o.Some? && MatchesOriginal(t, o.value, Merge(e.value, u))
    ensures var h := HierarchicalId(t, entityId, parentId, categoryId).value;
      var r := Update(m, t, entityId, u, parentId, categoryId);
      MapOf(r, t).values == MapOf(m, t).values[h := Merge(MapOf(m, t).values[h], u).(state := Normal)]
      && r.changes == m.changes.Delete(h) && h !in r.changes.values
  {
  }

  /**
   * Any other update of a present entity keeps a new entity 'new' and makes an existing one
   * 'edited' and tracked as 'edit'; a new subcategory or item given a non-blank name is
   * tracked as 'create'.
   */
  lemma UpdateMarksEdited(m: Menu, t: EntityType, entityId: Id, u: Updates, parentId: Id, categoryId: Id)
    requires HasRequiredIds(t, parentId, categoryId)
    requires var h := HierarchicalId(t, entityId, parentId, categoryId);
      var e := Lookup(MapOf(m, t).values, h);
      var o := Lookup(OriginalOf(m, t), h);
      e.Some? && (e.value.state == New || o.None? || !MatchesOriginal(t, o.value, Merge(e.value, u)))
    ensures var h := HierarchicalId(t, entityId, parentId, categoryId);
      var e := Lookup(MapOf(m, t).values, h).value;
      var r := Update(m, t, entityId, u, parentId, categoryId);
      Lookup(MapOf(r, t).values, h) == Some(Merge(e, u).(state := if e.state == New then New else Edited))
      && (e.state != New ==> r.changes.Get(h.value) == Some(Edit))
      && (e.state == New && HasContent(u) && t != CategoryType ==> r.changes.Get(h.value) == Some(Create))
      && (e.state == New && (!HasContent(u) || t == CategoryType) ==> r.changes == m.changes)
  {
    var h := HierarchicalId(t, entityId, parentId, categoryId);
    var e := Lookup(MapOf(m, t).values, h).value;
    var em := MapOf(m, t).Set(h.value, Merge(e, u).(state := if e.state == New then New else Edited));
    var m1 := WithMap(m, t, em);
    assert MapOf(m1, t) == em;
    assert Update(m, t, entityId, u, parentId, categoryId).changes ==
      if e.state != New then m1.changes.Set(h.value, Edit)
      else if HasContent(u) && t != CategoryType then m1.changes.Set(h.value, Create)
      else m.changes;
  }

  /** Deleting a new entity removes it from its map, from its parent's child list and from the tracking. */
  lemma DeleteNewRemoves(m: Menu, t: EntityType, entityId: Id, parentId: Id, categoryId: Id)
    requires var e := Lookup(MapOf(m, t).values, HierarchicalId(t, entityId, parentId, categoryId));
      e.Some? && e.value.state == New
    ensures var h := HierarchicalId(t, entityId, parentId, categoryId).value;
      var p := ParentHId(t, parentId, categoryId);
      var r := DeleteEntity(m, t, entityId, parentId, categoryId);
      h !in MapOf(r, t).values && h !in r.changes.values
      && (Truthy(p) ==> (p.value in r.children && h !in r.children[p.value]
            && forall x :: x in ChildList(m.children, p) && x != h ==> x in r.children[p.value]))
      && (!Truthy(p) ==> h !in r.children)
  {
  }

  /** Deleting an existing entity keeps it, marked 'deleted', remembers its state and tracks 'delete'. */
  lemma DeleteExistingMarks(m: Menu, t: EntityType, entityId: Id, parentId: Id, categoryId: Id)
    requires var e := Lookup(MapOf(m, t).values, HierarchicalId(t, entityId, parentId, categoryId));
      e.Some? && e.value.state != New
    ensures var h := HierarchicalId(t, entityId, parentId, categoryId).value;
      var e := MapOf(m, t).values[h];
      var r := DeleteEntity(m, t, entityId, parentId, categoryId);
      MapOf(r, t).values == MapOf(m, t).values[h := e.(previousState := Some(e.state), state := Deleted)]
      && r.changes.Get(h) == Some(ChangeType.Delete) && r.children == m.children
  {
  }

  /** The tracking of an existing entity agrees with its state: 'edited' when tracked as 'edit', untracked when 'normal'. */
  ghost predicate TrackedAsState(m: Menu, t: EntityType, h: string) {
    h in MapOf(m, t).values
    && var e := MapOf(m, t).values[h];
    e.previousState.None?
    && (e.state == Normal ==> h !in m.changes.values)
    && (e.state == Edited ==> m.changes.Get(h) == Some(Edit))
    && (e.state == Normal || e.state == Edited)
  }

  /** `Without` removes a key appended to a list that did not hold it. */
  lemma WithoutAppended(keys: seq<string>, h: string)
    requires h !in keys
    ensures Without(keys + [h], h) == keys
  {
    if keys != [] {
      assert (keys + [h])[1..] == keys[1..] + [h];
      WithoutAppended(keys[1..], h);
    } else {
      assert Without([h][1..], h) == [];
    }
  }

  lemma SetTwice<V>(om: OrderedMap<V>, h: string, x: V, y: V)
    ensures om.Set(h, x).Set(h, y) == om.Set(h, y)
  {
  }

  lemma SetPresent<V>(om: OrderedMap<V>, h: string)
    requires h in om.values
    ensures om.Set(h, om.values[h]) == om
  {
  }

  lemma WithMapTwice(m: Menu, t: EntityType, a: OrderedMap<Entity>, b: OrderedMap<Entity>)
    ensures WithMap(WithMap(m, t, a), t, b) == WithMap(m, t, b)
  {
  }

  lemma WithMapSame(m: Menu, t: EntityType)
    ensures WithMap(m, t, MapOf(m, t)) == m
  {
  }

  /**
   * Undoing the deletion of an existing entity gives back the state before the deletion:
   * the same entity maps, the same children and the same tracking map, in the same order.
   */
  lemma UndoDeleteRestores(m: Menu, t: EntityType, entityId: Id, parentId: Id, categoryId: Id)
    requires m.changes.Valid() && HasRequiredIds(t, parentId, categoryId)
    requires var h := HierarchicalId(t, entityId, parentId, categoryId);
      h.Some? && TrackedAsState(m, t, h.value)
    ensures UndoDelete(DeleteEntity(m, t, entityId, parentId, categoryId), t, entityId, parentId, categoryId) == m
  {
    var h := HierarchicalId(t, entityId, parentId, categoryId).value;
    var d := DeleteShape(m, t, entityId, parentId, categoryId);
    RestoreAfterDelete(m, t, h);
    UndoShape(d, t, entityId, parentId, categoryId);
  }

  /** Marking a tracked entity deleted and then restoring it from `previousState` gives back the same menu. */
  lemma RestoreAfterDelete(m: Menu, t: EntityType, h: string)
    requires m.changes.Valid() && TrackedAsState(m, t, h)
    ensures var e := MapOf(m, t).values[h];
      var d := WithMap(m, t, MapOf(m, t).Set(h, e.(previousState := Some(e.state), state := Deleted)))
        .(changes := m.changes.Set(h, ChangeType.Delete));
      h in MapOf(d, t).values
      && var e2 := MapOf(d, t).values[h];
      var restored := e2.previousState.GetOr(Normal);
      WithMap(d, t, MapOf(d, t).Set(h, e2.(state := restored, previousState := None)))
        .(changes := if restored == Edited then d.changes.Set(h, Edit) else d.changes.Delete(h)) == m
  {
    var em := MapOf(m, t);
    var e := em.values[h];
    var deleted := e.(previousState := Some(e.state), state := Deleted);
    var d0 := WithMap(m, t, em.Set(h, deleted));
    var c1 := m.changes.Set(h, ChangeType.Delete);
    var d := d0.(changes := c1);
    assert MapOf(d, t) == em.Set(h, deleted);
    ChangesRestored(m.changes, h, e.state);
    assert deleted.(state := e.state, previousState := None) == e;
    assert em.Set(h, deleted).Set(h, e) == em by {
      SetTwice(em, h, deleted, e);
      SetPresent(em, h);
    }
    WithMapChanges(d0, t, em, c1);
    WithMapTwice(m, t, em.Set(h, deleted), em);
    WithMapSame(m, t);
  }

  /** Marking `h` deleted and then restoring its state gives the change list back. */
  lemma ChangesRestored(changes: OrderedMap<ChangeType>, h: string, state: State)
    requires changes.Valid()
    requires state == Normal ==> h !in changes.values
    requires state == Edited ==> changes.Get(h) == Some(Edit)
    requires state == Normal || state == Edited
    ensures var c1 := changes.Set(h, ChangeType.Delete);
      (if state == Edited then c1.Set(h, Edit) else c1.Delete(h)) == changes
  {
    if state == Normal {
      assert h !in changes.keys;
      WithoutAppended(changes.keys, h);
    }
  }

  lemma WithMapChanges(x: Menu, t: EntityType, em: OrderedMap<Entity>, c: OrderedMap<ChangeType>)
    ensures WithMap(x.(changes := c), t, em) == WithMap(x, t, em).(changes := c)
  {
  }

  lemma DeleteShape(m: Menu, t: EntityType, entityId: Id, parentId: Id, categoryId: Id) returns (d: Menu)
    requires var e := Lookup(MapOf(m, t).values, HierarchicalId(t, entityId, parentId, categoryId));
      e.Some? && e.value.state != New
    ensures var h := HierarchicalId(t, entityId, parentId, categoryId).value;
      var e := MapOf(m, t).values[h];
      d == DeleteEntity(m, t, entityId, parentId, categoryId)
      && d == WithMap(m, t, MapOf(m, t).Set(h, e.(previousState := Some(e.state), state := Deleted)))
        .(changes := m.changes.Set(h, ChangeType.Delete))
  {
    d := DeleteEntity(m, t, entityId, parentId, categoryId);
  }

  /** The state after undoing the deletion of a present entity, spelled out. */
  lemma UndoShape(d: Menu, t: EntityType, entityId: Id, parentId: Id, categoryId: Id)
    requires HasRequiredIds(t, parentId, categoryId)
    requires Lookup(MapOf(d, t).values, HierarchicalId(t, entityId, parentId, categoryId)).Some?
    ensures var h := HierarchicalId(t, entityId, parentId, categoryId).value;
      var e := MapOf(d, t).values[h];
      var restored := e.previousState.GetOr(Normal);
      UndoDelete(d, t, entityId, parentId, categoryId)
        == WithMap(d, t, MapOf(d, t).Set(h, e.(state := restored, previousState := None)))
          .(changes := if restored == Edited then d.changes.Set(h, Edit) else d.changes.Delete(h))
  {
  }

  /**
   * The undo as written loses the tracking of an edited entity: edit it, delete it, undo
   * the deletion, and it is back to 'edited' but no longer tracked, so its badge is
   * 'normal' and the tracking map may be empty although the edit is still there.
   */
  lemma UndoDeleteAsWrittenForgetsEdit(m: Menu, t: EntityType, entityId: Id, parentId: Id, categoryId: Id)
    requires m.Valid() && HasRequiredIds(t, parentId, categoryId)
    requires var h := HierarchicalId(t, entityId, parentId, categoryId);
      h.Some? && TrackedAsState(m, t, h.value) && MapOf(m, t).values[h.value].state == Edited
    ensures var h := HierarchicalId(t, entityId, parentId, categoryId).value;
      var r := UndoDeleteAsWritten(DeleteEntity(m, t, entityId, parentId, categoryId), t, entityId, parentId, categoryId);
      MapOf(r, t).values[h].state == Edited && h !in r.changes.values
      && (VisualState(r.changes, h, Edited) == Edited <==> ChildChanged(r.changes, h))
      && (m.changes.keys == [h] ==> !HasRealChanges(r.changes))
      && r != m
  {
    var h := HierarchicalId(t, entityId, parentId, categoryId).value;
    var r := UndoDeleteAsWritten(DeleteEntity(m, t, entityId, parentId, categoryId), t, entityId, parentId, categoryId);
    assert h in m.changes.values && h !in r.changes.values;
    if m.changes.keys == [h] {
      assert r.changes.keys == Without([h], h) == [];
    }
  }

  /** A move whose target position is outside the list changes nothing. */
  lemma MoveOutOfRange(m: Menu, t: EntityType, entityId: Id, d: Direction, parentId: Id, categoryId: Id)
    requires m.categories.Valid()
    requires var h := HierarchicalId(t, entityId, parentId, categoryId);
      var n := if t == CategoryType then |CategoryList(m)| else |ChildList(m.children, ParentHId(t, parentId, categoryId))|;
      var index := if t == CategoryType then FindEntry(CategoryList(m), h) else IndexIn(ChildList(m.children, ParentHId(t, parentId, categoryId)), h);
      TargetIndex(index, d) < 0 || TargetIndex(index, d) >= n
    ensures Move(m, t, entityId, d, parentId, categoryId) == m
  {
  }

  /**
   * Moving a subcategory or item to a neighbouring position swaps the two child-list
   * entries and the two orderIndex values; the list keeps its elements.
   */
  lemma MoveChildSwaps(m: Menu, t: EntityType, entityId: Id, d: Direction, parentId: Id, categoryId: Id)
    requires m.categories.Valid() && t != CategoryType
    requires var h := HierarchicalId(t, entityId, parentId, categoryId);
      var list := ChildList(m.children, ParentHId(t, parentId, categoryId));
      var i := IndexIn(list, h);
      var j := TargetIndex(i, d);
      0 <= i && 0 <= j < |list| && list[i] in MapOf(m, t).values && list[j] in MapOf(m, t).values && list[i] != list[j]
    ensures var h := HierarchicalId(t, entityId, parentId, categoryId);
      var p := ParentHId(t, parentId, categoryId);
      var list := ChildList(m.children, p);
      var i := IndexIn(list, h);
      var j := TargetIndex(i, d);
      var r := Move(m, t, entityId, d, parentId, categoryId);
      var before := MapOf(m, t).values;
      var after := MapOf(r, t).values;
      r.children[p.value] == Swap(list, i, j) && multiset(r.children[p.value]) == multiset(list)
      && after[list[i]].orderIndex == before[list[j]].orderIndex
      && after[list[j]].orderIndex == before[list[i]].orderIndex
      && after.Keys == before.Keys
  {
    var p := ParentHId(t, parentId, categoryId);
    var list := ChildList(m.children, p);
    var i := IndexIn(list, HierarchicalId(t, entityId, parentId, categoryId));
    var j := TargetIndex(i, d);
    SwapMultiset(list, i, j);
  }

  lemma SwapMultiset<T>(list: seq<T>, i: nat, j: nat)
    requires i < |list| && j < |list|
    ensures multiset(Swap(list, i, j)) == multiset(list)
  {
    var r := Swap(list, i, j);
    if i != j {
      var a := list[i := list[j]];
      assert multiset(a) == multiset(list) - multiset{list[i]} + multiset{list[j]};
      assert multiset(r) == multiset(a) - multiset{a[j]} + multiset{list[i]};
    }
  }

  /**
   * Moving a category to a neighbouring position in orderIndex order exchanges the two
   * categories' orderIndex values and marks them 'edited' unless new.
   */
  lemma MoveCategorySwaps(m: Menu, entityId: Id, d: Direction, parentId: Id, categoryId: Id)
    requires m.categories.Valid()
    requires var list := CategoryList(m);
      var i := FindEntry(list, HierarchicalId(CategoryType, entityId, parentId, categoryId));
      var j := TargetIndex(i, d);
      0 <= i && 0 <= j < |list| && list[i].0 != list[j].0
    ensures var list := CategoryList(m);
      var i := FindEntry(list, HierarchicalId(CategoryType, entityId, parentId, categoryId));
      var j := TargetIndex(i, d);
      var r := Move(m, CategoryType, entityId, d, parentId, categoryId);
      r.categories.keys == m.categories.keys
      && r.categories.values[list[i].0] == Moved(m.categories.values[list[i].0], m.categories.values[list[j].0].orderIndex)
      && r.categories.values[list[j].0] == Moved(m.categories.values[list[j].0], m.categories.values[list[i].0].orderIndex)
      && r.children == m.children && r.changes == m.changes
  {
    CategoryListEntries(m);
  }

  /** The display list of categories holds entries of the categories map, ordered by orderIndex. */
  lemma CategoryListEntries(m: Menu)
    requires m.categories.Valid()
    ensures |CategoryList(m)| == m.categories.Size()
    ensures forall k :: 0 <= k < |CategoryList(m)| ==>
      CategoryList(m)[k].0 in m.categories.values && CategoryList(m)[k].1 == m.categories.values[CategoryList(m)[k].0]
    ensures forall i, j :: 0 <= i < j < |CategoryList(m)| ==> CategoryList(m)[i].1.orderIndex <= CategoryList(m)[j].1.orderIndex
  {
    var list := CategoryList(m);
    var entries := m.categories.Entries();
    ByOrderIndexIsTotalPreorder();
    SortSorted(entries, ByOrderIndex);
    forall k | 0 <= k < |list| ensures list[k].0 in m.categories.values && list[k].1 == m.categories.values[list[k].0] {
      assert list[k] in multiset(entries);
      var q :| 0 <= q < |entries| && entries[q] == list[k];
    }
  }

  // ---------------------------------------------------------------------------
  // The handlers on the editor's state
  // ---------------------------------------------------------------------------

  /** The setter of the entity map of type `t`. */
  method SetEntityMap(st: MenuState, t: EntityType, em: OrderedMap<Entity>)
    modifies st
    ensures st.Snapshot() == WithMap(old(st.Snapshot()), t, em)
  {
    match t
    case CategoryType => st.categories := em;
    case SubcategoryType => st.subcategories := em;
    case ItemType => st.items := em;
  }

  /** `handleAdd(entityType, parentId, categoryId)`, with `Date.now()` passed in as `now`. */
  method HandleAdd(st: MenuState, t: EntityType, parentId: Id, categoryId: Id, now: nat) returns (newEntityId: string)
    modifies st
    ensures (st.Snapshot(), newEntityId) == Add(old(st.Snapshot()), t, parentId, categoryId, now)
  {
    newEntityId := TempIdPrefix(t) + NatToString(now);
    var hierarchicalId: string;
    var parentHId: Id := None;
    var orderIndex: nat;
    match t {
      case CategoryType =>
        hierarchicalId := newEntityId;
        orderIndex := st.categories.Size();
      case SubcategoryType =>
        parentHId := BuildHierarchicalId(parentId, None, None);
        hierarchicalId := BuildHierarchicalId(parentId, Some(newEntityId), None).value;
        orderIndex := |ChildList(st.children, parentHId)|;
      case ItemType =>
        parentHId := BuildHierarchicalId(categoryId, parentId, None);
        hierarchicalId := BuildHierarchicalId(categoryId, parentId, Some(newEntityId)).value;
        orderIndex := |ChildList(st.children, parentHId)|;
    }
    var newEntity := DefaultEntity(t, newEntityId, orderIndex, parentId, categoryId);
    SetEntityMap(st, t, MapOf(st.Snapshot(), t).Set(hierarchicalId, newEntity));
    if Truthy(parentHId) {
      st.children := st.children[parentHId.value := ChildList(st.children, parentHId) + [hierarchicalId]];
    }
    if t == ItemType {
      st.TrackChange(hierarchicalId, Create);
    }
  }

  /** `handleUpdate(entityType, entityId, updates, parentId, categoryId)`. */
  method HandleUpdate(st: MenuState, t: EntityType, entityId: Id, u: Updates, parentId: Id, categoryId: Id)
    modifies st
    ensures st.Snapshot() == Update(old(st.Snapshot()), t, entityId, u, parentId, categoryId)
  {
    if !HasRequiredIds(t, parentId, categoryId) {
      return;
    }
    var hierarchicalId := HierarchicalId(t, entityId, parentId, categoryId);
    var entity := Lookup(MapOf(st.Snapshot(), t).values, hierarchicalId);
    if entity.None? {
      return;
    }
    var h := hierarchicalId.value;
    var isNew := entity.value.state == New;
    var hasContentNow := HasContent(u);
    var updatedEntity := Merge(entity.value, u);
    if !isNew {
      var originalEntity := Lookup(OriginalOf(st.Snapshot(), t), hierarchicalId);
      if originalEntity.Some? && MatchesOriginal(t, originalEntity.value, updatedEntity) {
        SetEntityMap(st, t, MapOf(st.Snapshot(), t).Set(h, updatedEntity.(state := Normal)));
        st.UntrackChange(h);
        return;
      }
    }
    SetEntityMap(st, t, MapOf(st.Snapshot(), t).Set(h, updatedEntity.(state := if isNew then New else Edited)));
    if !isNew {
      st.TrackChange(h, Edit);
    } else if hasContentNow && t != CategoryType {
      st.TrackChange(h, Create);
    }
  }

  /** The confirmed deletion of `handleDelete(entityType, entityId, parentId, categoryId)`. */
  method HandleDelete(st: MenuState, t: EntityType, entityId: Id, parentId: Id, categoryId: Id)
    modifies st
    ensures st.Snapshot() == DeleteEntity(old(st.Snapshot()), t, entityId, parentId, categoryId)
  {
    var hierarchicalId := HierarchicalId(t, entityId, parentId, categoryId);
    var parentHId := ParentHId(t, parentId, categoryId);
    var entity := Lookup(MapOf(st.Snapshot(), t).values, hierarchicalId);
    if entity.None? {
      return;
    }
    var h := hierarchicalId.value;
    if entity.value.state == New {
      SetEntityMap(st, t, MapOf(st.Snapshot(), t).Delete(h));
      if Truthy(parentHId) {
        var siblings := ChildList(st.children, parentHId);
        st.children := st.children[parentHId.value := Filter(siblings, (x: string) => x != h)];
      } else {
        st.children := st.children - {h};
      }
      st.UntrackChange(h);
    } else {
      SetEntityMap(st, t, MapOf(st.Snapshot(), t).Set(h, entity.value.(previousState := Some(entity.value.state), state := Deleted)));
      st.TrackChange(h, ChangeType.Delete);
    }
  }

  /** `handleUndoDelete(entityType, entityId, parentId, categoryId)`, with the tracking restored. */
  method HandleUndoDelete(st: MenuState, t: EntityType, entityId: Id, parentId: Id, categoryId: Id)
    modifies st
    ensures st.Snapshot() == UndoDelete(old(st.Snapshot()), t, entityId, parentId, categoryId)
  {
    if !HasRequiredIds(t, parentId, categoryId) {
      return;
    }
    var hierarchicalId := HierarchicalId(t, entityId, parentId, categoryId);
    var entity := Lookup(MapOf(st.Snapshot(), t).values, hierarchicalId);
    if entity.None? {
      return;
    }
    var h := hierarchicalId.value;
    var previousState := entity.value.previousState.GetOr(Normal);
    SetEntityMap(st, t, MapOf(st.Snapshot(), t).Set(h, entity.value.(state := previousState, previousState := None)));
    if previousState == Edited {
      st.TrackChange(h, Edit);
    } else {
      st.UntrackChange(h);
    }
  }

  /** `handleMove(entityType, entityId, direction, parentId, categoryId)`. */
  method HandleMove(st: MenuState, t: EntityType, entityId: Id, d: Direction, parentId: Id, categoryId: Id)
    requires st.categories.Valid()
    modifies st
    ensures st.Snapshot() == Move(old(st.Snapshot()), t, entityId, d, parentId, categoryId)
  {
    var hierarchicalId := HierarchicalId(t, entityId, parentId, categoryId);
    if t == CategoryType {
      HandleMoveCategory(st, hierarchicalId, d);
    } else {
      HandleMoveChild(st, t, hierarchicalId, d, ParentHId(t, parentId, categoryId));
    }
  }

  method HandleMoveCategory(st: MenuState, hierarchicalId: Id, d: Direction)
    requires st.categories.Valid()
    modifies st
    ensures st.Snapshot() == MoveCategory(old(st.Snapshot()), hierarchicalId, d)
  {
    var itemsList := Sort(st.categories.Entries(), ByOrderIndex);
    var index := FindEntry(itemsList, hierarchicalId);
    var targetIndex := if d == Up then index - 1 else index + 1;
    if targetIndex < 0 || targetIndex >= |itemsList| || index < 0 {
      return;
    }
    var (currentHId, current) := itemsList[index];
    var (targetHId, target) := itemsList[targetIndex];
    st.categories := st.categories
      .Set(currentHId, Moved(current, target.orderIndex))
      .Set(targetHId, Moved(target, current.orderIndex));
  }

  method HandleMoveChild(st: MenuState, t: EntityType, hierarchicalId: Id, d: Direction, parentHId: Id)
    modifies st
    ensures st.Snapshot() == MoveChild(old(st.Snapshot()), t, hierarchicalId, d, parentHId)
  {
    var itemsList := ChildList(st.children, parentHId);
    var index := IndexIn(itemsList, hierarchicalId);
    var targetIndex := if d == Up then index - 1 else index + 1;
    if targetIndex < 0 || targetIndex >= |itemsList| || index < 0 {
      return;
    }
    var currentHId := itemsList[index];
    var targetHId := itemsList[targetIndex];
    var em := MapOf(st.Snapshot(), t);
    if currentHId !in em.values || targetHId !in em.values {
      return;
    }
    var current := em.values[currentHId];
    var target := em.values[targetHId];
    SetEntityMap(st, t, em.Set(currentHId, Moved(current, target.orderIndex)).Set(targetHId, Moved(target, current.orderIndex)));
    var newList := itemsList[index := itemsList[targetIndex]][targetIndex := itemsList[index]];
    st.children := st.children[parentHId.value := newList];
  }
}
