/**
 * The menu editor's data shapes and conversions (admin/src/utils/menuDataUtils.js):
 * hierarchical IDs such as "cat.sub.item", the conversion between the nested menu
 * (categories holding subcategories holding items) and the flat form of four maps
 * keyed by hierarchical ID, and the clean-up applied before the menu is sent to
 * the backend.
 */
module MenuDataUtils {
  import opened Wrappers
  import opened Strings
  import opened Numbers
  import opened Sorting
  import opened OrderedMaps
  import opened Sequences

  /** A JavaScript value held in an entity field that the editor passes through unchanged. */
  datatype Value = Undefined | Null | Str(s: string) | Num(n: real) | Bool(b: bool)

  /** The editing state `_state` of a menu entity. */
  datatype State = Normal | New | Edited | Deleted

  /** An ID argument that may be `null` (None). */
  type Id = Option<string>

  /** How a template literal renders an ID argument. */
  function Render(x: Id): string {
    match x
    case None => "null"
    case Some(s) => s
  }

  /** JavaScript truthiness of an ID argument: neither null nor the empty string. */
  predicate Truthy(x: Id) {
    x.Some? && x.value != ""
  }

  // ---------------------------------------------------------------------------
  // Hierarchical IDs
  // ---------------------------------------------------------------------------

  /** `buildHierarchicalId(categoryId, subcategoryId, itemId)`. */
  function BuildHierarchicalId(categoryId: Id, subcategoryId: Id, itemId: Id): (r: Id)
    ensures Truthy(itemId) ==> r == Some(Render(categoryId) + "." + Render(subcategoryId) + "." + itemId.value)
    ensures !Truthy(itemId) && Truthy(subcategoryId) ==> r == Some(Render(categoryId) + "." + subcategoryId.value)
    ensures !Truthy(itemId) && !Truthy(subcategoryId) ==> r == categoryId
  {
    if Truthy(itemId) then Some(Render(categoryId) + "." + Render(subcategoryId) + "." + itemId.value)
    else if Truthy(subcategoryId) then Some(Render(categoryId) + "." + subcategoryId.value)
    else categoryId
  }

  /** The key of a subcategory in the flat maps. */
  function SubcategoryHId(categoryId: string, subcategoryId: string): string {
    BuildHierarchicalId(Some(categoryId), Some(subcategoryId), None).value
  }

  /** The key of an item in the flat maps. */
  function ItemHId(categoryId: string, subcategoryId: string, itemId: string): string {
    BuildHierarchicalId(Some(categoryId), Some(subcategoryId), Some(itemId)).value
  }

  datatype Level = CategoryLevel | SubcategoryLevel | ItemLevel

  datatype ParsedId = ParsedId(categoryId: Id, subcategoryId: Id, itemId: Id, level: Option<Level>)

  /** `parts[k] || null`: a missing or empty part is null. */
  function PartOrNull(parts: seq<string>, k: nat): (r: Id)
    ensures r.Some? <==> k < |parts| && parts[k] != ""
  {
    if k < |parts| && parts[k] != "" then Some(parts[k]) else None
  }

  /** `parseHierarchicalId(hierarchicalId)`. */
  function ParseHierarchicalId(hierarchicalId: Id): (r: ParsedId)
    ensures !Truthy(hierarchicalId) ==> r == ParsedId(None, None, None, None)
    ensures Truthy(hierarchicalId) ==> r.level.Some?
  {
    if !Truthy(hierarchicalId) then ParsedId(None, None, None, None)
    else
      var parts := Split(hierarchicalId.value, '.');
      ParsedId(PartOrNull(parts, 0), PartOrNull(parts, 1), PartOrNull(parts, 2),
        Some(if |parts| == 1 then CategoryLevel else if |parts| == 2 then SubcategoryLevel else ItemLevel))
  }

  /** A plain ID: non-empty and free of the separator. */
  predicate PlainId(s: string) {
    s != "" && '.' !in s
  }

  /** Parsing a built ID gives back its parts and the level they make up. */
  lemma ParseBuildItem(c: string, s: string, i: string)
    requires PlainId(c) && PlainId(s) && PlainId(i)
    ensures ParseHierarchicalId(BuildHierarchicalId(Some(c), Some(s), Some(i)))
      == ParsedId(Some(c), Some(s), Some(i), Some(ItemLevel))
  {
    var h := c + "." + s + "." + i;
    SplitItemKey(c, s, i);
    ParseThreeParts(h, [c, s, i]);
  }

  lemma SplitItemKey(c: string, s: string, i: string)
    requires PlainId(c) && PlainId(s) && PlainId(i)
    ensures Split(c + "." + s + "." + i, '.') == [c, s, i]
  {
    var parts := [c, s, i];
    assert Join(parts, ".") == c + "." + s + "." + i by {
      assert parts[1..] == [s, i] && [s, i][1..] == [i];
      assert Join([s, i], ".") == s + "." + i;
    }
    assert forall k :: 0 <= k < |parts| ==> '.' !in parts[k];
    SplitJoin(parts, '.');
  }

  lemma ParseThreeParts(h: string, parts: seq<string>)
    requires Split(h, '.') == parts && |parts| == 3 && parts[0] != "" && parts[1] != "" && parts[2] != ""
    ensures ParseHierarchicalId(Some(h)) == ParsedId(Some(parts[0]), Some(parts[1]), Some(parts[2]), Some(ItemLevel))
  {
    assert '.' in h;
  }

  lemma ParseBuildSubcategory(c: string, s: string)
    requires PlainId(c) && PlainId(s)
    ensures ParseHierarchicalId(BuildHierarchicalId(Some(c), Some(s), None))
      == ParsedId(Some(c), Some(s), None, Some(SubcategoryLevel))
  {
    assert Join([c, s], ".") == c + "." + s;
    SplitJoin([c, s], '.');
  }

  lemma ParseBuildCategory(c: string)
    requires PlainId(c)
    ensures ParseHierarchicalId(BuildHierarchicalId(Some(c), None, None))
      == ParsedId(Some(c), None, None, Some(CategoryLevel))
  {
    SplitJoin([c], '.');
  }

  /** Item keys of plain IDs determine the IDs they were built from. */
  lemma ItemHIdInjective(c: string, s: string, i: string, c': string, s': string, i': string)
    requires PlainId(c) && PlainId(s) && PlainId(i) && PlainId(c') && PlainId(s') && PlainId(i')
    requires ItemHId(c, s, i) == ItemHId(c', s', i')
    ensures c == c' && s == s' && i == i'
  {
    ParseBuildItem(c, s, i);
    ParseBuildItem(c', s', i');
  }

  lemma SubcategoryHIdInjective(c: string, s: string, c': string, s': string)
    requires PlainId(c) && PlainId(s) && PlainId(c') && PlainId(s')
    requires SubcategoryHId(c, s) == SubcategoryHId(c', s')
    ensures c == c' && s == s'
  {
    ParseBuildSubcategory(c, s);
    ParseBuildSubcategory(c', s');
  }

  /** `isDescendantOf(childId, potentialParentId)`. */
  function IsDescendantOf(childId: string, parentId: string): (r: bool)
    ensures r <==> StartsWith(childId, parentId + ".")
    ensures r ==> childId != parentId
  {
    childId != parentId && StartsWith(childId, parentId + ".")
  }

  /** Being a descendant is a strict order: irreflexive and transitive. */
  lemma DescendantIrreflexive(h: string)
    ensures !IsDescendantOf(h, h)
  {
  }

  lemma DescendantTransitive(a: string, b: string, c: string)
    requires IsDescendantOf(a, b) && IsDescendantOf(b, c)
    ensures IsDescendantOf(a, c)
  {
    assert a[..|c + "."|] == b[..|c + "."|];
  }

  /** The parent IDs of `hierarchicalId`: the proper prefixes made of whole parts, shortest first. */
  function ParentIds(hierarchicalId: string): (r: seq<string>)
    ensures |r| == |Split(hierarchicalId, '.')| - 1
  {
    var parts := Split(hierarchicalId, '.');
    seq(|parts| - 1, i requires 0 <= i < |parts| - 1 => Join(parts[..i + 1], "."))
  }

  /** `getParentHierarchicalIds(hierarchicalId)`. */
  method GetParentHierarchicalIds(hierarchicalId: string) returns (parents: seq<string>)
    ensures parents == ParentIds(hierarchicalId)
  {
    var parts := Split(hierarchicalId, '.');
    parents := [];
    var i := 1;
    while i < |parts|
      invariant 1 <= i <= |parts|
      invariant parents == ParentIds(hierarchicalId)[..i - 1]
    {
      parents := parents + [Join(parts[..i], ".")];
      i := i + 1;
    }
  }

  /** Every parent ID is an ancestor of the ID, and each one is the parent of the next. */
  lemma ParentIdsAreAncestors(h: string)
    ensures forall k :: 0 <= k < |ParentIds(h)| ==> IsDescendantOf(h, ParentIds(h)[k])
    ensures forall k :: 0 < k < |ParentIds(h)| ==> IsDescendantOf(ParentIds(h)[k], ParentIds(h)[k - 1])
  {
    var r := ParentIds(h);
    var parts := Split(h, '.');
    forall k | 0 <= k < |r| ensures IsDescendantOf(h, r[k]) {
      assert r[k] == Join(parts[..k + 1], ".");
      ParentIdIsAncestor(h, k);
    }
    forall k | 0 < k < |r| ensures IsDescendantOf(r[k], r[k - 1]) {
      assert r[k] == Join(parts[..k + 1], ".") && r[k - 1] == Join(parts[..k], ".");
      ParentIdExtends(h, k);
    }
  }

  lemma ParentIdIsAncestor(h: string, k: nat)
    requires k < |Split(h, '.')| - 1
    ensures IsDescendantOf(h, Join(Split(h, '.')[..k + 1], "."))
  {
    var parts := Split(h, '.');
    JoinSplit(h, '.');
    assert parts == parts[..k + 1] + parts[k + 1..];
    JoinAppend(parts[..k + 1], parts[k + 1..], ".");
  }

  lemma ParentIdExtends(h: string, k: nat)
    requires 0 < k < |Split(h, '.')| - 1
    ensures IsDescendantOf(Join(Split(h, '.')[..k + 1], "."), Join(Split(h, '.')[..k], "."))
  {
    var parts := Split(h, '.');
    assert parts[..k + 1] == parts[..k] + [parts[k]];
    JoinAppend(parts[..k], [parts[k]], ".");
  }

  // ---------------------------------------------------------------------------
  // Entities, nested and flat
  // ---------------------------------------------------------------------------

  /** An item of the nested menu. A `state` of None is an absent `_state`. */
  datatype MenuItem = MenuItem(
    id: string, nameKey: Value, descriptionKey: Value, price: Value, available: Value,
    orderIndex: int, createdAt: Value, updatedAt: Value, state: Option<State>, previousState: Option<State>)

  /** A subcategory of the nested menu; an absent `items` list is the empty list. */
  datatype MenuSubcategory = MenuSubcategory(
    id: string, nameKey: Value, orderIndex: int, createdAt: Value, updatedAt: Value,
    items: seq<MenuItem>, state: Option<State>, previousState: Option<State>)

  datatype MenuCategory = MenuCategory(
    id: string, nameKey: Value, orderIndex: int, createdAt: Value, updatedAt: Value,
    subcategories: seq<MenuSubcategory>, state: Option<State>, previousState: Option<State>)

  /**
   * An entity of the flat maps. Fields a level does not have are `Undefined` (or None):
   * a category has no parent, a subcategory's parent is its category, an item's parent
   * is its subcategory and it also records its category.
   */
  datatype Entity = Entity(
    id: string, parentId: Id, categoryId: Id, nameKey: Value, descriptionKey: Value,
    price: Value, available: Value, orderIndex: int, createdAt: Value, updatedAt: Value,
    state: State, previousState: Option<State>)

  /** The four maps of the flat form, keyed by hierarchical ID. */
  datatype FlatMenu = FlatMenu(
    categories: OrderedMap<Entity>, subcategories: OrderedMap<Entity>, items: OrderedMap<Entity>,
    children: map<string, seq<string>>)
  {
    ghost predicate Valid() {
      categories.Valid() && subcategories.Valid() && items.Valid()
    }
  }

  function EmptyFlatMenu(): (r: FlatMenu)
    ensures r.Valid()
  {
    FlatMenu(Empty(), Empty(), Empty(), map[])
  }

  /** `_state || 'normal'`. */
  function StateOrNormal(state: Option<State>): (r: State)
    ensures state.Some? ==> r == state.value
    ensures state.None? ==> r == Normal
  {
    state.GetOr(Normal)
  }

  /** `available !== undefined ? available : true`. */
  function AvailableOrTrue(available: Value): (r: Value)
    ensures available == Undefined ==> r == Bool(true)
    ensures available != Undefined ==> r == available
  {
    if available == Undefined then Bool(true) else available
  }

  function FlatCategory(c: MenuCategory): (r: Entity)
    ensures r.id == c.id && r.parentId.None? && r.state == StateOrNormal(c.state)
  {
    Entity(c.id, None, None, c.nameKey, Undefined, Undefined, Undefined, c.orderIndex,
      c.createdAt, c.updatedAt, StateOrNormal(c.state), c.previousState)
  }

  function FlatSubcategory(categoryId: string, s: MenuSubcategory): (r: Entity)
    ensures r.id == s.id && r.parentId == Some(categoryId) && r.state == StateOrNormal(s.state)
  {
    Entity(s.id, Some(categoryId), None, s.nameKey, Undefined, Undefined, Undefined, s.orderIndex,
      s.createdAt, s.updatedAt, StateOrNormal(s.state), s.previousState)
  }

  function FlatItem(categoryId: string, subcategoryId: string, i: MenuItem): (r: Entity)
    ensures r.id == i.id && r.parentId == Some(subcategoryId) && r.categoryId == Some(categoryId)
    ensures r.state == StateOrNormal(i.state) && r.available == AvailableOrTrue(i.available)
  {
    Entity(i.id, Some(subcategoryId), Some(categoryId), i.nameKey, i.descriptionKey, i.price,
      AvailableOrTrue(i.available), i.orderIndex, i.createdAt, i.updatedAt, StateOrNormal(i.state),
      i.previousState)
  }

  // ---------------------------------------------------------------------------
  // flattenMenuData
  // ---------------------------------------------------------------------------

  function ItemHIds(categoryId: string, subcategoryId: string, items: seq<MenuItem>): (r: seq<string>)
    ensures |r| == |items|
    ensures forall k :: 0 <= k < |r| ==> r[k] == ItemHId(categoryId, subcategoryId, items[k].id)
  {
    if items == [] then []
    else ItemHIds(categoryId, subcategoryId, items[..|items| - 1]) + [ItemHId(categoryId, subcategoryId, items[|items| - 1].id)]
  }

  function SubcategoryHIds(categoryId: string, subs: seq<MenuSubcategory>): (r: seq<string>)
    ensures |r| == |subs|
    ensures forall k :: 0 <= k < |r| ==> r[k] == SubcategoryHId(categoryId, subs[k].id)
  {
    if subs == [] then []
    else SubcategoryHIds(categoryId, subs[..|subs| - 1]) + [SubcategoryHId(categoryId, subs[|subs| - 1].id)]
  }

  /** The item map after storing the items of one subcategory, in order. */
  function StoreItems(m: OrderedMap<Entity>, c: string, s: string, items: seq<MenuItem>): (r: OrderedMap<Entity>)
  {
    if items == [] then m
    else
      var last := items[|items| - 1];
      StoreItems(m, c, s, items[..|items| - 1]).Set(ItemHId(c, s, last.id), FlatItem(c, s, last))
  }

  /** `children.set(key, ids)` only when `ids` is non-empty. */
  function SetChildren(children: map<string, seq<string>>, key: string, ids: seq<string>): map<string, seq<string>> {
    if |ids| > 0 then children[key := ids] else children
  }

  /** The flat form after storing one subcategory of category `c` and its items. */
  function StoreSubcategory(f: FlatMenu, c: string, s: MenuSubcategory): (r: FlatMenu)
  {
    var hid := SubcategoryHId(c, s.id);
    FlatMenu(f.categories, f.subcategories.Set(hid, FlatSubcategory(c, s)),
      StoreItems(f.items, c, s.id, s.items), SetChildren(f.children, hid, ItemHIds(c, s.id, s.items)))
  }

  function StoreSubcategories(f: FlatMenu, c: string, subs: seq<MenuSubcategory>): (r: FlatMenu)
    ensures r.categories == f.categories
  {
    if subs == [] then f
    else StoreSubcategory(StoreSubcategories(f, c, subs[..|subs| - 1]), c, subs[|subs| - 1])
  }

  /** The flat form after storing one category and everything under it. */
  function StoreCategory(f: FlatMenu, c: MenuCategory): (r: FlatMenu)
  {
    var f1 := f.(categories := f.categories.Set(c.id, FlatCategory(c)));
    var f2 := StoreSubcategories(f1, c.id, c.subcategories);
    f2.(children := SetChildren(f2.children, c.id, SubcategoryHIds(c.id, c.subcategories)))
  }

  /** The flat form of a nested menu: each category stored in turn. */
  function Flatten(nested: seq<MenuCategory>): (r: FlatMenu)
  {
    if nested == [] then EmptyFlatMenu()
    else StoreCategory(Flatten(nested[..|nested| - 1]), nested[|nested| - 1])
  }

  /** `flattenMenuData(nestedData)`: one pass over the categories. */
  method FlattenMenuData(nested: seq<MenuCategory>) returns (f: FlatMenu)
    ensures f == Flatten(nested)
  {
    f := EmptyFlatMenu();
    var ci := 0;
    while ci < |nested|
      invariant 0 <= ci <= |nested|
      invariant f == Flatten(nested[..ci])
    {
      f := FlattenCategory(f, nested[ci]);
      assert nested[..ci + 1][..ci] == nested[..ci];
      ci := ci + 1;
    }
    assert nested[..ci] == nested;
  }

  /** The body of the category pass: the category, its subcategories, then its children list. */
  method FlattenCategory(f0: FlatMenu, category: MenuCategory) returns (f: FlatMenu)
    ensures f == StoreCategory(f0, category)
  {
    f := f0.(categories := f0.categories.Set(category.id, FlatCategory(category)));
    var subcategoryIds;
    f, subcategoryIds := FlattenSubcategories(f, category.id, category.subcategories);
    if |subcategoryIds| > 0 {
      f := f.(children := f.children[category.id := subcategoryIds]);
    }
  }

  /** The inner pass over the subcategories of category `c`. */
  method FlattenSubcategories(f0: FlatMenu, c: string, subs: seq<MenuSubcategory>)
    returns (f: FlatMenu, subcategoryIds: seq<string>)
    ensures f == StoreSubcategories(f0, c, subs)
    ensures subcategoryIds == SubcategoryHIds(c, subs)
  {
    f := f0;
    subcategoryIds := [];
    var si := 0;
    while si < |subs|
      invariant 0 <= si <= |subs|
      invariant f == StoreSubcategories(f0, c, subs[..si])
      invariant subcategoryIds == SubcategoryHIds(c, subs[..si])
    {
      var subcategoryHId;
      f, subcategoryHId := FlattenSubcategory(f, c, subs[si]);
      subcategoryIds := subcategoryIds + [subcategoryHId];
      assert subs[..si + 1][..si] == subs[..si];
      si := si + 1;
    }
    assert subs[..si] == subs;
  }

  /** The body of the subcategory pass: the subcategory, its items, then its children list. */
  method FlattenSubcategory(f0: FlatMenu, c: string, subcategory: MenuSubcategory)
    returns (f: FlatMenu, subcategoryHId: string)
    ensures f == StoreSubcategory(f0, c, subcategory)
    ensures subcategoryHId == SubcategoryHId(c, subcategory.id)
  {
    subcategoryHId := SubcategoryHId(c, subcategory.id);
    var subcategoriesMap := f0.subcategories.Set(subcategoryHId, FlatSubcategory(c, subcategory));
    var itemsMap, itemIds := FlattenItems(f0.items, c, subcategory.id, subcategory.items);
    var childrenMap := f0.children;
    if |itemIds| > 0 {
      childrenMap := childrenMap[subcategoryHId := itemIds];
    }
    f := FlatMenu(f0.categories, subcategoriesMap, itemsMap, childrenMap);
  }

  /** The innermost pass over the items of subcategory `s` of category `c`. */
  method FlattenItems(items0: OrderedMap<Entity>, c: string, s: string, items: seq<MenuItem>)
    returns (itemsMap: OrderedMap<Entity>, itemIds: seq<string>)
    ensures itemsMap == StoreItems(items0, c, s, items)
    ensures itemIds == ItemHIds(c, s, items)
  {
    itemsMap := items0;
    itemIds := [];
    var ii := 0;
    while ii < |items|
      invariant 0 <= ii <= |items|
      invariant itemsMap == StoreItems(items0, c, s, items[..ii])
      invariant itemIds == ItemHIds(c, s, items[..ii])
    {
      var item := items[ii];
      var itemHId := ItemHId(c, s, item.id);
      itemIds := itemIds + [itemHId];
      itemsMap := itemsMap.Set(itemHId, FlatItem(c, s, item));
      assert items[..ii + 1][..ii] == items[..ii];
      ii := ii + 1;
    }
    assert items[..ii] == items;
  }

  /** Each pass keeps the three entity maps well formed. */
  lemma {:induction false} StoreItemsValid(m: OrderedMap<Entity>, c: string, s: string, items: seq<MenuItem>)
    requires m.Valid()
    ensures StoreItems(m, c, s, items).Valid()
  {
    if items != [] {
      StoreItemsValid(m, c, s, items[..|items| - 1]);
    }
  }

  lemma {:induction false} StoreSubcategoriesValid(f: FlatMenu, c: string, subs: seq<MenuSubcategory>)
    requires f.Valid()
    ensures StoreSubcategories(f, c, subs).Valid()
  {
    if subs != [] {
      var s := subs[|subs| - 1];
      StoreSubcategoriesValid(f, c, subs[..|subs| - 1]);
      StoreItemsValid(StoreSubcategories(f, c, subs[..|subs| - 1]).items, c, s.id, s.items);
    }
  }

  /** The flat form of any nested menu has well-formed maps. */
  lemma {:induction false} FlattenValid(nested: seq<MenuCategory>)
    ensures Flatten(nested).Valid()
  {
    if nested != [] {
      var last := nested[|nested| - 1];
      FlattenValid(nested[..|nested| - 1]);
      var g := Flatten(nested[..|nested| - 1]);
      StoreSubcategoriesValid(g.(categories := g.categories.Set(last.id, FlatCategory(last))), last.id, last.subcategories);
    }
  }

  // ---------------------------------------------------------------------------
  // What the flat form holds
  // ---------------------------------------------------------------------------

  /** Item IDs that are plain and distinct within their subcategory. */
  predicate WellFormedSubcategory(s: MenuSubcategory) {
    PlainId(s.id)
    && (forall t :: 0 <= t < |s.items| ==> PlainId(s.items[t].id))
    && (forall t, u :: 0 <= t < u < |s.items| ==> s.items[t].id != s.items[u].id)
  }

  predicate WellFormedCategory(c: MenuCategory) {
    PlainId(c.id)
    && (forall j :: 0 <= j < |c.subcategories| ==> WellFormedSubcategory(c.subcategories[j]))
    && (forall j, k :: 0 <= j < k < |c.subcategories| ==> c.subcategories[j].id != c.subcategories[k].id)
  }

  /** A menu whose IDs are plain and unique among their siblings. */
  predicate WellFormed(nested: seq<MenuCategory>) {
    (forall i :: 0 <= i < |nested| ==> WellFormedCategory(nested[i]))
    && (forall i, j :: 0 <= i < j < |nested| ==> nested[i].id != nested[j].id)
  }

  function CategoryIds(nested: seq<MenuCategory>): (r: seq<string>)
    ensures |r| == |nested|
    ensures forall i :: 0 <= i < |r| ==> r[i] == nested[i].id
  {
    if nested == [] then [] else CategoryIds(nested[..|nested| - 1]) + [nested[|nested| - 1].id]
  }

  /** What the flat form holds for subcategory `s` of category `c` and its items. */
  ghost predicate HoldsSubcategory(f: FlatMenu, c: string, s: MenuSubcategory) {
    var hid := SubcategoryHId(c, s.id);
    hid in f.subcategories.values && f.subcategories.values[hid] == FlatSubcategory(c, s)
    && (s.items != [] ==> hid in f.children && f.children[hid] == ItemHIds(c, s.id, s.items))
    && (s.items == [] ==> hid !in f.children)
    && (forall t :: 0 <= t < |s.items| ==>
          ItemHId(c, s.id, s.items[t].id) in f.items.values
          && f.items.values[ItemHId(c, s.id, s.items[t].id)] == FlatItem(c, s.id, s.items[t]))
  }

  /** The categories map holds the flat entry of `c`. */
  ghost predicate StoresCategory(f: FlatMenu, c: MenuCategory) {
    c.id in f.categories.values && f.categories.values[c.id] == FlatCategory(c)
  }

  /** What the flat form holds for category `c` and everything under it. */
  ghost predicate HoldsCategory(f: FlatMenu, c: MenuCategory) {
    StoresCategory(f, c)
    && (c.subcategories != [] ==> c.id in f.children && f.children[c.id] == SubcategoryHIds(c.id, c.subcategories))
    && (c.subcategories == [] ==> c.id !in f.children)
    && (forall j :: 0 <= j < |c.subcategories| ==> HoldsSubcategory(f, c.id, c.subcategories[j]))
  }

  /** Two maps agree at key `k`. */
  ghost predicate Agree<V>(a: map<string, V>, b: map<string, V>, k: string) {
    (k in a <==> k in b) && (k in a ==> a[k] == b[k])
  }

  lemma SubcategoryHIdHasDot(c: string, s: string)
    requires s != ""
    ensures '.' in SubcategoryHId(c, s)
  {
    assert SubcategoryHId(c, s)[|c|] == '.';
  }

  lemma ItemHIdHasDot(c: string, s: string, i: string)
    requires i != ""
    ensures '.' in ItemHId(c, s, i)
  {
    assert ItemHId(c, s, i)[|Render(Some(c))|] == '.';
  }

  lemma SubcategoryHIdNotItemHId(c: string, s: string, c': string, s': string, i': string)
    requires PlainId(c) && PlainId(s) && PlainId(c') && PlainId(s') && PlainId(i')
    ensures SubcategoryHId(c, s) != ItemHId(c', s', i')
  {
    ParseBuildSubcategory(c, s);
    ParseBuildItem(c', s', i');
  }

  lemma {:induction false} StoreItemsFrame(m: OrderedMap<Entity>, c: string, s: string, items: seq<MenuItem>, k: string)
    requires k !in ItemHIds(c, s, items)
    ensures Agree(StoreItems(m, c, s, items).values, m.values, k)
  {
    if items != [] {
      StoreItemsFrame(m, c, s, items[..|items| - 1], k);
    }
  }

  lemma {:induction false} StoreItemsLookup(m: OrderedMap<Entity>, c: string, s: MenuSubcategory, items: seq<MenuItem>)
    requires PlainId(c) && WellFormedSubcategory(s.(items := items))
    ensures forall t :: 0 <= t < |items| ==>
      ItemHId(c, s.id, items[t].id) in StoreItems(m, c, s.id, items).values
      && StoreItems(m, c, s.id, items).values[ItemHId(c, s.id, items[t].id)] == FlatItem(c, s.id, items[t])
  {
    if items != [] {
      var n := |items|;
      var pre := items[..n - 1];
      assert WellFormedSubcategory(s.(items := pre));
      StoreItemsLookup(m, c, s, pre);
      forall t | 0 <= t < n - 1
        ensures ItemHId(c, s.id, items[t].id) != ItemHId(c, s.id, items[n - 1].id)
      {
        if ItemHId(c, s.id, items[t].id) == ItemHId(c, s.id, items[n - 1].id) {
          ItemHIdInjective(c, s.id, items[t].id, c, s.id, items[n - 1].id);
        }
      }
    }
  }

  lemma {:induction false} StoreSubcategoriesFrame(f: FlatMenu, c: string, subs: seq<MenuSubcategory>, k: string)
    ensures k !in SubcategoryHIds(c, subs) ==>
      Agree(StoreSubcategories(f, c, subs).subcategories.values, f.subcategories.values, k)
      && Agree(StoreSubcategories(f, c, subs).children, f.children, k)
    ensures (forall j :: 0 <= j < |subs| ==> k !in ItemHIds(c, subs[j].id, subs[j].items)) ==>
      Agree(StoreSubcategories(f, c, subs).items.values, f.items.values, k)
  {
    if k !in SubcategoryHIds(c, subs) {
      StoreSubcategoriesFrameKeys(f, c, subs, k);
    }
    if forall j :: 0 <= j < |subs| ==> k !in ItemHIds(c, subs[j].id, subs[j].items) {
      StoreSubcategoriesFrameItems(f, c, subs, k);
    }
  }

  lemma {:induction false} StoreSubcategoriesFrameKeys(f: FlatMenu, c: string, subs: seq<MenuSubcategory>, k: string)
    requires k !in SubcategoryHIds(c, subs)
    ensures Agree(StoreSubcategories(f, c, subs).subcategories.values, f.subcategories.values, k)
    ensures Agree(StoreSubcategories(f, c, subs).children, f.children, k)
  {
    if subs != [] {
      StoreSubcategoriesFrameKeys(f, c, subs[..|subs| - 1], k);
    }
  }

  lemma {:induction false} StoreSubcategoriesFrameItems(f: FlatMenu, c: string, subs: seq<MenuSubcategory>, k: string)
    requires forall j :: 0 <= j < |subs| ==> k !in ItemHIds(c, subs[j].id, subs[j].items)
    ensures Agree(StoreSubcategories(f, c, subs).items.values, f.items.values, k)
  {
    if subs != [] {
      var pre := subs[..|subs| - 1];
      assert forall j :: 0 <= j < |pre| ==> k !in ItemHIds(c, pre[j].id, pre[j].items) by {
        forall j | 0 <= j < |pre| ensures k !in ItemHIds(c, pre[j].id, pre[j].items) {
          assert pre[j] == subs[j];
        }
      }
      StoreSubcategoriesFrameItems(f, c, pre, k);
      StoreSubcategoryFrameItems(StoreSubcategories(f, c, pre), c, subs[|subs| - 1], k);
    }
  }

  lemma StoreSubcategoryFrameItems(f: FlatMenu, c: string, s: MenuSubcategory, k: string)
    requires k !in ItemHIds(c, s.id, s.items)
    ensures Agree(StoreSubcategory(f, c, s).items.values, f.items.values, k)
  {
    StoreItemsFrame(f.items, c, s.id, s.items, k);
  }

  /** Storing the subcategories of a well-formed category records each of them and its items. */
  lemma {:induction false} StoreSubcategoriesHold(f: FlatMenu, c: MenuCategory, subs: seq<MenuSubcategory>)
    requires WellFormedCategory(c.(subcategories := subs))
    requires forall t :: 0 <= t < |subs| ==> SubcategoryHId(c.id, subs[t].id) !in f.children
    ensures forall j :: 0 <= j < |subs| ==> HoldsSubcategory(StoreSubcategories(f, c.id, subs), c.id, subs[j])
  {
    if subs != [] {
      var n := |subs|;
      var pre := subs[..n - 1];
      SubcategoriesPrefix(f, c, subs);
      StoreSubcategoriesHold(f, c, pre);
      var g := StoreSubcategories(f, c.id, pre);
      forall j | 0 <= j < n - 1 ensures HoldsSubcategory(g, c.id, subs[j]) {
        assert subs[j] == pre[j];
      }
      StoreSubcategoryHoldsLast(f, c, subs);
      StoreSubcategoryKeepsAllHeld(g, c, subs);
    }
  }

  /** What holds of a category's subcategories holds of all but the last of them. */
  lemma SubcategoriesPrefix(f: FlatMenu, c: MenuCategory, subs: seq<MenuSubcategory>)
    requires subs != [] && WellFormedCategory(c.(subcategories := subs))
    requires forall t :: 0 <= t < |subs| ==> SubcategoryHId(c.id, subs[t].id) !in f.children
    ensures var pre := subs[..|subs| - 1];
      && WellFormedCategory(c.(subcategories := pre))
      && forall t :: 0 <= t < |pre| ==> SubcategoryHId(c.id, pre[t].id) !in f.children
  {
    var pre := subs[..|subs| - 1];
    assert WellFormedCategory(c.(subcategories := pre));
  }

  /** The last stored subcategory is held, with its items and its child list. */
  lemma StoreSubcategoryHoldsLast(f: FlatMenu, c: MenuCategory, subs: seq<MenuSubcategory>)
    requires subs != [] && WellFormedCategory(c.(subcategories := subs))
    requires forall t :: 0 <= t < |subs| ==> SubcategoryHId(c.id, subs[t].id) !in f.children
    ensures HoldsSubcategory(StoreSubcategories(f, c.id, subs), c.id, subs[|subs| - 1])
  {
    var n := |subs|;
    var pre := subs[..n - 1];
    var last := subs[n - 1];
    var g := StoreSubcategories(f, c.id, pre);
    assert WellFormedSubcategory(last);
    StoreItemsLookup(g.items, c.id, last, last.items);
    if last.items == [] {
      var lastKey := SubcategoryHId(c.id, last.id);
      assert lastKey !in SubcategoryHIds(c.id, pre) by {
        forall t | 0 <= t < |pre| ensures SubcategoryHIds(c.id, pre)[t] != lastKey {
          assert WellFormedSubcategory(pre[t]) && pre[t].id != last.id;
          if SubcategoryHId(c.id, pre[t].id) == lastKey {
            SubcategoryHIdInjective(c.id, pre[t].id, c.id, last.id);
          }
        }
      }
      StoreSubcategoriesFrame(f, c.id, pre, lastKey);
    }
  }

  /** Storing the last subcategory leaves what the flat form holds for the ones before it. */
  lemma StoreSubcategoryKeepsAllHeld(g: FlatMenu, c: MenuCategory, subs: seq<MenuSubcategory>)
    requires subs != [] && WellFormedCategory(c.(subcategories := subs))
    requires forall j :: 0 <= j < |subs| - 1 ==> HoldsSubcategory(g, c.id, subs[j])
    ensures forall j :: 0 <= j < |subs| - 1 ==>
      HoldsSubcategory(StoreSubcategory(g, c.id, subs[|subs| - 1]), c.id, subs[j])
  {
    var last := subs[|subs| - 1];
    assert PlainId(c.id) && WellFormedSubcategory(last);
    forall j | 0 <= j < |subs| - 1 ensures HoldsSubcategory(StoreSubcategory(g, c.id, last), c.id, subs[j]) {
      assert WellFormedSubcategory(subs[j]) && subs[j].id != last.id;
      StoreSubcategoryKeepsHeld(g, c.id, subs[j], last);
    }
  }

  /** Storing subcategory `last` of category `c` leaves what the flat form holds for a sibling. */
  lemma StoreSubcategoryKeepsHeld(g: FlatMenu, c: string, s: MenuSubcategory, last: MenuSubcategory)
    requires PlainId(c) && WellFormedSubcategory(s) && WellFormedSubcategory(last) && s.id != last.id
    requires HoldsSubcategory(g, c, s)
    ensures HoldsSubcategory(StoreSubcategory(g, c, last), c, s)
  {
    var h := StoreSubcategory(g, c, last);
    var key := SubcategoryHId(c, s.id);
    if key == SubcategoryHId(c, last.id) {
      SubcategoryHIdInjective(c, s.id, c, last.id);
    }
    forall t | 0 <= t < |s.items|
      ensures ItemHId(c, s.id, s.items[t].id) in h.items.values
      ensures h.items.values[ItemHId(c, s.id, s.items[t].id)] == FlatItem(c, s.id, s.items[t])
    {
      var ik := ItemHId(c, s.id, s.items[t].id);
      assert ik !in ItemHIds(c, last.id, last.items) by {
        forall u | 0 <= u < |last.items| ensures ItemHIds(c, last.id, last.items)[u] != ik {
          if ItemHId(c, last.id, last.items[u].id) == ik {
            ItemHIdInjective(c, last.id, last.items[u].id, c, s.id, s.items[t].id);
          }
        }
      }
      StoreSubcategoryFrameItems(g, c, last, ik);
    }
  }

  lemma StoreCategoryFrame(f: FlatMenu, cat: MenuCategory, k: string)
    ensures k != cat.id ==> Agree(StoreCategory(f, cat).categories.values, f.categories.values, k)
    ensures k != cat.id && k !in SubcategoryHIds(cat.id, cat.subcategories) ==>
      Agree(StoreCategory(f, cat).subcategories.values, f.subcategories.values, k)
      && Agree(StoreCategory(f, cat).children, f.children, k)
    ensures (forall j :: 0 <= j < |cat.subcategories| ==>
              k !in ItemHIds(cat.id, cat.subcategories[j].id, cat.subcategories[j].items)) ==>
      Agree(StoreCategory(f, cat).items.values, f.items.values, k)
  {
    var f1 := f.(categories := f.categories.Set(cat.id, FlatCategory(cat)));
    StoreSubcategoriesFrame(f1, cat.id, cat.subcategories, k);
  }

  /** Storing a category leaves what the flat form holds for a different category. */
  lemma StoreCategoryKeepsOthers(f: FlatMenu, last: MenuCategory, c: MenuCategory)
    requires WellFormedCategory(c) && WellFormedCategory(last) && c.id != last.id
    requires HoldsCategory(f, c)
    ensures HoldsCategory(StoreCategory(f, last), c)
  {
    var lsubs := last.subcategories;
    assert c.id !in SubcategoryHIds(last.id, lsubs) by {
      forall t | 0 <= t < |lsubs| ensures SubcategoryHIds(last.id, lsubs)[t] != c.id {
        SubcategoryHIdHasDot(last.id, lsubs[t].id);
      }
    }
    StoreCategoryFrame(f, last, c.id);
    forall j | 0 <= j < |c.subcategories| ensures HoldsSubcategory(StoreCategory(f, last), c.id, c.subcategories[j]) {
      StoreCategoryKeepsSubcategory(f, last, c.id, c.subcategories[j]);
    }
  }

  /** Storing a category leaves what the flat form holds for a subcategory of a different one. */
  lemma StoreCategoryKeepsSubcategory(f: FlatMenu, last: MenuCategory, c: string, s: MenuSubcategory)
    requires PlainId(c) && WellFormedSubcategory(s) && WellFormedCategory(last) && c != last.id
    requires HoldsSubcategory(f, c, s)
    ensures HoldsSubcategory(StoreCategory(f, last), c, s)
  {
    var lsubs := last.subcategories;
    var key := SubcategoryHId(c, s.id);
    SubcategoryHIdHasDot(c, s.id);
    assert key !in SubcategoryHIds(last.id, lsubs) by {
      forall t | 0 <= t < |lsubs| ensures SubcategoryHIds(last.id, lsubs)[t] != key {
        if SubcategoryHId(last.id, lsubs[t].id) == key {
          SubcategoryHIdInjective(last.id, lsubs[t].id, c, s.id);
        }
      }
    }
    StoreCategoryFrame(f, last, key);
    forall t | 0 <= t < |s.items|
      ensures Agree(StoreCategory(f, last).items.values, f.items.values, ItemHId(c, s.id, s.items[t].id))
    {
      StoreCategoryKeepsItem(f, last, c, s.id, s.items[t].id);
    }
  }

  /** Storing a category leaves the flat entry of an item of a different category. */
  lemma StoreCategoryKeepsItem(f: FlatMenu, last: MenuCategory, c: string, s: string, i: string)
    requires PlainId(c) && PlainId(s) && PlainId(i) && WellFormedCategory(last) && c != last.id
    ensures Agree(StoreCategory(f, last).items.values, f.items.values, ItemHId(c, s, i))
  {
    var ik := ItemHId(c, s, i);
    var lsubs := last.subcategories;
    forall u | 0 <= u < |lsubs| ensures ik !in ItemHIds(last.id, lsubs[u].id, lsubs[u].items) {
      var ls := lsubs[u];
      assert WellFormedSubcategory(ls);
      forall v | 0 <= v < |ls.items| ensures ItemHIds(last.id, ls.id, ls.items)[v] != ik {
        if ItemHId(last.id, ls.id, ls.items[v].id) == ik {
          ItemHIdInjective(last.id, ls.id, ls.items[v].id, c, s, i);
        }
      }
    }
    StoreCategoryFrame(f, last, ik);
  }

  /** Storing the last category of a well-formed menu leaves what the flat form holds for the others. */
  lemma StoreCategoryKeepsAll(g: FlatMenu, pre: seq<MenuCategory>, last: MenuCategory)
    requires WellFormed(pre + [last])
    requires forall i :: 0 <= i < |pre| ==> HoldsCategory(g, pre[i])
    ensures forall i :: 0 <= i < |pre| ==> HoldsCategory(StoreCategory(g, last), pre[i])
  {
    var nested := pre + [last];
    assert WellFormedCategory(last) by { assert last == nested[|pre|]; }
    forall i | 0 <= i < |pre| ensures HoldsCategory(StoreCategory(g, last), pre[i]) {
      assert pre[i] == nested[i];
      assert nested[i].id != nested[|pre|].id;
      StoreCategoryKeepsOthers(g, last, pre[i]);
    }
  }

  /** A key that no category of `nested` produces is not in the flat children map. */
  lemma {:induction false} FlattenChildrenUntouched(nested: seq<MenuCategory>, k: string)
    requires forall i :: 0 <= i < |nested| ==> k != nested[i].id && k !in SubcategoryHIds(nested[i].id, nested[i].subcategories)
    ensures k !in Flatten(nested).children
  {
    if nested != [] {
      var n := |nested|;
      FlattenChildrenUntouched(nested[..n - 1], k);
      StoreCategoryFrame(Flatten(nested[..n - 1]), nested[n - 1], k);
    }
  }

  /** The categories map lists the category IDs in their nested order. */
  lemma {:induction false} FlattenCategoryKeys(nested: seq<MenuCategory>)
    requires forall i, j :: 0 <= i < j < |nested| ==> nested[i].id != nested[j].id
    ensures Flatten(nested).categories.keys == CategoryIds(nested)
    ensures forall k :: k in Flatten(nested).categories.values <==> k in CategoryIds(nested)
  {
    if nested != [] {
      var n := |nested|;
      var pre := nested[..n - 1];
      var last := nested[n - 1];
      FlattenCategoryKeys(pre);
      StoreCategoryCategories(Flatten(pre), last);
      LastIdFresh(nested);
      AppendKey(Flatten(pre).categories, CategoryIds(pre), last.id, FlatCategory(last));
    }
  }

  /** The last ID of a menu with distinct category IDs is not among the earlier ones. */
  lemma LastIdFresh(nested: seq<MenuCategory>)
    requires nested != []
    requires forall i, j :: 0 <= i < j < |nested| ==> nested[i].id != nested[j].id
    ensures nested[|nested| - 1].id !in CategoryIds(nested[..|nested| - 1])
  {
    var ids := CategoryIds(nested[..|nested| - 1]);
    forall k | 0 <= k < |ids| ensures ids[k] != nested[|nested| - 1].id {
      assert ids[k] == nested[k].id;
    }
  }

  /** Setting a fresh key appends it to an ordered map whose keys are `ids`. */
  lemma AppendKey<V>(m: OrderedMap<V>, ids: seq<string>, k: string, v: V)
    requires m.keys == ids && (forall x :: x in m.values <==> x in ids) && k !in ids
    ensures m.Set(k, v).keys == ids + [k]
    ensures forall x :: x in m.Set(k, v).values <==> x in ids + [k]
  {
  }

  /** Storing a category sets its entry in the categories map and touches no other. */
  lemma StoreCategoryCategories(g: FlatMenu, c: MenuCategory)
    ensures StoreCategory(g, c).categories == g.categories.Set(c.id, FlatCategory(c))
  {
    var f1 := g.(categories := g.categories.Set(c.id, FlatCategory(c)));
    assert StoreSubcategories(f1, c.id, c.subcategories).categories == f1.categories;
  }

  /** Before the last category of a well-formed menu is stored, none of its keys has children. */
  lemma LastKeysUntouched(pre: seq<MenuCategory>, last: MenuCategory)
    requires WellFormed(pre + [last])
    ensures last.id !in Flatten(pre).children
    ensures forall t :: 0 <= t < |last.subcategories| ==>
      SubcategoryHId(last.id, last.subcategories[t].id) !in Flatten(pre).children
  {
    var nested := pre + [last];
    assert forall i :: 0 <= i < |pre| ==> pre[i] == nested[i];
    assert WellFormedCategory(last) by { assert last == nested[|pre|]; }
    forall t | 0 <= t < |last.subcategories|
      ensures SubcategoryHId(last.id, last.subcategories[t].id) !in Flatten(pre).children
    {
      var key := SubcategoryHId(last.id, last.subcategories[t].id);
      SubcategoryHIdHasDot(last.id, last.subcategories[t].id);
      forall i | 0 <= i < |pre| ensures key !in SubcategoryHIds(pre[i].id, pre[i].subcategories) {
        assert WellFormedCategory(pre[i]) && pre[i].id != last.id;
        forall u | 0 <= u < |pre[i].subcategories|
          ensures SubcategoryHIds(pre[i].id, pre[i].subcategories)[u] != key
        {
          if SubcategoryHId(pre[i].id, pre[i].subcategories[u].id) == key {
            SubcategoryHIdInjective(pre[i].id, pre[i].subcategories[u].id, last.id, last.subcategories[t].id);
          }
        }
      }
      FlattenChildrenUntouched(pre, key);
    }
    forall i | 0 <= i < |pre| ensures last.id !in SubcategoryHIds(pre[i].id, pre[i].subcategories) {
      assert pre[i].id != last.id;
      forall u | 0 <= u < |pre[i].subcategories|
        ensures SubcategoryHIds(pre[i].id, pre[i].subcategories)[u] != last.id
      {
        assert WellFormedCategory(pre[i]);
        SubcategoryHIdHasDot(pre[i].id, pre[i].subcategories[u].id);
      }
    }
    FlattenChildrenUntouched(pre, last.id);
  }

  /** Storing the last category of a well-formed menu records it and everything under it. */
  /** Setting the children of category `c` keeps what the flat form holds for its subcategories. */
  lemma SetChildrenKeepsSubcategories(f: FlatMenu, c: MenuCategory, ids: seq<string>)
    requires WellFormedCategory(c)
    requires forall j :: 0 <= j < |c.subcategories| ==> HoldsSubcategory(f, c.id, c.subcategories[j])
    ensures forall j :: 0 <= j < |c.subcategories| ==>
      HoldsSubcategory(f.(children := SetChildren(f.children, c.id, ids)), c.id, c.subcategories[j])
  {
    forall j | 0 <= j < |c.subcategories|
      ensures HoldsSubcategory(f.(children := SetChildren(f.children, c.id, ids)), c.id, c.subcategories[j])
    {
      SubcategoryHIdHasDot(c.id, c.subcategories[j].id);
    }
  }

  lemma StoreCategoryHoldsLast(pre: seq<MenuCategory>, last: MenuCategory)
    requires WellFormed(pre + [last])
    ensures HoldsCategory(StoreCategory(Flatten(pre), last), last)
  {
    var nested := pre + [last];
    assert WellFormedCategory(last) by { assert last == nested[|pre|]; }
    LastKeysUntouched(pre, last);
    var g := Flatten(pre);
    var f1 := g.(categories := g.categories.Set(last.id, FlatCategory(last)));
    StoreSubcategoriesHold(f1, last, last.subcategories);
    var f2 := StoreSubcategories(f1, last.id, last.subcategories);
    SetChildrenKeepsSubcategories(f2, last, SubcategoryHIds(last.id, last.subcategories));
    if last.subcategories == [] {
      assert f2 == f1;
    }
  }

  /**
   * The flat form of a well-formed menu stores every category under its ID, every
   * subcategory under "cat.sub" and every item under "cat.sub.item", and lists the
   * children of each in their nested order; entities without children have no entry
   * in the children map.
   */
  lemma {:induction false} FlattenHolds(nested: seq<MenuCategory>)
    requires WellFormed(nested)
    ensures forall i :: 0 <= i < |nested| ==> HoldsCategory(Flatten(nested), nested[i])
  {
    if nested != [] {
      var n := |nested|;
      var pre := nested[..n - 1];
      var last := nested[n - 1];
      assert nested == pre + [last];
      FlattenHolds(pre);
      StoreCategoryHoldsLast(pre, last);
      StoreCategoryKeepsAll(Flatten(pre), pre, last);
      var h := Flatten(nested);
      assert h == StoreCategory(Flatten(pre), last);
      forall i | 0 <= i < n ensures HoldsCategory(h, nested[i]) {
        if i < n - 1 {
          assert nested[i] == pre[i];
        }
      }
    }
  }

  /** No key of a children map has an empty list. */
  ghost predicate NoEmptyChildLists(children: map<string, seq<string>>) {
    forall k :: k in children ==> children[k] != []
  }

  /** The flat form never stores an empty child list. */
  lemma {:induction false} FlattenNoEmptyChildLists(nested: seq<MenuCategory>)
    ensures NoEmptyChildLists(Flatten(nested).children)
  {
    if nested != [] {
      var n := |nested|;
      FlattenNoEmptyChildLists(nested[..n - 1]);
      StoreCategoryNoEmpty(Flatten(nested[..n - 1]), nested[n - 1]);
    }
  }

  lemma StoreCategoryNoEmpty(g: FlatMenu, c: MenuCategory)
    requires NoEmptyChildLists(g.children)
    ensures NoEmptyChildLists(StoreCategory(g, c).children)
  {
    var f1 := g.(categories := g.categories.Set(c.id, FlatCategory(c)));
    StoreSubcategoriesNoEmpty(f1, c.id, c.subcategories);
    var f2 := StoreSubcategories(f1, c.id, c.subcategories);
    SetChildrenNoEmpty(f2.children, c.id, SubcategoryHIds(c.id, c.subcategories));
  }

  lemma {:induction false} StoreSubcategoriesNoEmpty(f: FlatMenu, c: string, subs: seq<MenuSubcategory>)
    requires NoEmptyChildLists(f.children)
    ensures NoEmptyChildLists(StoreSubcategories(f, c, subs).children)
  {
    if subs != [] {
      var pre := subs[..|subs| - 1];
      var s := subs[|subs| - 1];
      StoreSubcategoriesNoEmpty(f, c, pre);
      var g := StoreSubcategories(f, c, pre);
      SetChildrenNoEmpty(g.children, SubcategoryHId(c, s.id), ItemHIds(c, s.id, s.items));
    }
  }

  lemma SetChildrenNoEmpty(children: map<string, seq<string>>, key: string, ids: seq<string>)
    requires NoEmptyChildLists(children)
    ensures NoEmptyChildLists(SetChildren(children, key, ids))
  {
  }

  // ---------------------------------------------------------------------------
  // unflattenMenuData
  // ---------------------------------------------------------------------------

  /** The comparator `(a, b) => a[1].orderIndex - b[1].orderIndex` on map entries. */
  function ByOrderIndex(a: (string, Entity), b: (string, Entity)): bool {
    a.1.orderIndex <= b.1.orderIndex
  }

  lemma ByOrderIndexIsTotalPreorder()
    ensures TotalPreorder(ByOrderIndex)
  {
  }

  /** `map.get(key) || []` on the children map. */
  function ChildrenOf(children: map<string, seq<string>>, key: string): seq<string> {
    if key in children then children[key] else []
  }

  /** The keys of `hids` that are present in `m`, in order. */
  function PresentKeys<V>(hids: seq<string>, m: map<string, V>): (r: seq<string>)
    ensures |r| <= |hids|
    ensures forall k :: 0 <= k < |r| ==> r[k] in m
  {
    if hids == [] then []
    else
      var last := hids[|hids| - 1];
      PresentKeys(hids[..|hids| - 1], m) + (if last in m then [last] else [])
  }

  lemma {:induction false} PresentKeysAll<V>(hids: seq<string>, m: map<string, V>)
    requires forall k :: 0 <= k < |hids| ==> hids[k] in m
    ensures PresentKeys(hids, m) == hids
  {
    if hids != [] {
      PresentKeysAll(hids[..|hids| - 1], m);
    }
  }

  function NestItem(e: Entity): MenuItem {
    MenuItem(e.id, e.nameKey, e.descriptionKey, e.price, e.available, e.orderIndex, e.createdAt,
      e.updatedAt, Some(e.state), e.previousState)
  }

  /** The items listed by `hids`, skipping IDs missing from the item map. */
  function NestItems(f: FlatMenu, hids: seq<string>): (r: seq<MenuItem>)
    ensures var present := PresentKeys(hids, f.items.values);
      |r| == |present| && forall k :: 0 <= k < |r| ==> r[k] == NestItem(f.items.values[present[k]])
  {
    if hids == [] then []
    else
      var last := hids[|hids| - 1];
      NestItems(f, hids[..|hids| - 1]) + (if last in f.items.values then [NestItem(f.items.values[last])] else [])
  }

  function NestSubcategory(f: FlatMenu, hid: string, e: Entity): MenuSubcategory {
    MenuSubcategory(e.id, e.nameKey, e.orderIndex, e.createdAt, e.updatedAt,
      NestItems(f, ChildrenOf(f.children, hid)), Some(e.state), e.previousState)
  }

  /** The subcategories listed by `hids`, skipping IDs missing from the subcategory map. */
  function NestSubcategories(f: FlatMenu, hids: seq<string>): (r: seq<MenuSubcategory>)
    ensures var present := PresentKeys(hids, f.subcategories.values);
      |r| == |present|
      && forall k :: 0 <= k < |r| ==> r[k] == NestSubcategory(f, present[k], f.subcategories.values[present[k]])
  {
    if hids == [] then []
    else
      var last := hids[|hids| - 1];
      NestSubcategories(f, hids[..|hids| - 1])
        + (if last in f.subcategories.values then [NestSubcategory(f, last, f.subcategories.values[last])] else [])
  }

  function NestCategory(f: FlatMenu, hid: string, e: Entity): MenuCategory {
    MenuCategory(e.id, e.nameKey, e.orderIndex, e.createdAt, e.updatedAt,
      NestSubcategories(f, ChildrenOf(f.children, hid)), Some(e.state), e.previousState)
  }

  function NestCategories(f: FlatMenu, entries: seq<(string, Entity)>): (r: seq<MenuCategory>)
    ensures |r| == |entries|
    ensures forall k :: 0 <= k < |r| ==> r[k] == NestCategory(f, entries[k].0, entries[k].1)
  {
    if entries == [] then []
    else
      var last := entries[|entries| - 1];
      NestCategories(f, entries[..|entries| - 1]) + [NestCategory(f, last.0, last.1)]
  }

  /** The nested menu of a flat form: categories by orderIndex, each with its present children. */
  function Unflatten(f: FlatMenu): seq<MenuCategory>
    requires f.categories.Valid()
  {
    NestCategories(f, Sort(f.categories.Entries(), ByOrderIndex))
  }

  /** `unflattenMenuData(categoriesMap, subcategoriesMap, itemsMap, childrenMap)`. */
  method UnflattenMenuData(f: FlatMenu) returns (categories: seq<MenuCategory>)
    requires f.categories.Valid()
    ensures categories == Unflatten(f)
  {
    var categoryEntries := Sort(f.categories.Entries(), ByOrderIndex);
    categories := UnflattenCategories(f, categoryEntries);
  }

  /** The category pass over the entries of the categories map, in sorted order. */
  method UnflattenCategories(f: FlatMenu, categoryEntries: seq<(string, Entity)>) returns (categories: seq<MenuCategory>)
    ensures categories == NestCategories(f, categoryEntries)
  {
    categories := [];
    var ci := 0;
    while ci < |categoryEntries|
      invariant 0 <= ci <= |categoryEntries|
      invariant categories == NestCategories(f, categoryEntries[..ci])
    {
      var category := UnflattenCategory(f, categoryEntries[ci].0, categoryEntries[ci].1);
      categories := categories + [category];
      assert categoryEntries[..ci + 1][..ci] == categoryEntries[..ci];
      ci := ci + 1;
    }
    assert categoryEntries[..ci] == categoryEntries;
  }

  /** The body of the category pass: one category with its subcategories. */
  method UnflattenCategory(f: FlatMenu, categoryHId: string, category: Entity) returns (c: MenuCategory)
    ensures c == NestCategory(f, categoryHId, category)
  {
    var subcategories := UnflattenSubcategories(f, ChildrenOf(f.children, categoryHId));
    c := MenuCategory(category.id, category.nameKey, category.orderIndex,
      category.createdAt, category.updatedAt, subcategories, Some(category.state), category.previousState);
  }

  method UnflattenSubcategories(f: FlatMenu, hids: seq<string>) returns (subcategories: seq<MenuSubcategory>)
    ensures subcategories == NestSubcategories(f, hids)
  {
    subcategories := [];
    var si := 0;
    while si < |hids|
      invariant 0 <= si <= |hids|
      invariant subcategories == NestSubcategories(f, hids[..si])
    {
      var subcategoryHId := hids[si];
      assert hids[..si + 1][..si] == hids[..si];
      if subcategoryHId in f.subcategories.values {
        var subcategory := UnflattenSubcategory(f, subcategoryHId, f.subcategories.values[subcategoryHId]);
        subcategories := subcategories + [subcategory];
      }
      si := si + 1;
    }
    assert hids[..si] == hids;
  }

  /** The body of the subcategory pass: one subcategory with its items. */
  method UnflattenSubcategory(f: FlatMenu, subcategoryHId: string, subcategory: Entity) returns (s: MenuSubcategory)
    ensures s == NestSubcategory(f, subcategoryHId, subcategory)
  {
    var items := UnflattenItems(f, ChildrenOf(f.children, subcategoryHId));
    s := MenuSubcategory(subcategory.id, subcategory.nameKey, subcategory.orderIndex, subcategory.createdAt,
      subcategory.updatedAt, items, Some(subcategory.state), subcategory.previousState);
  }

  method UnflattenItems(f: FlatMenu, hids: seq<string>) returns (items: seq<MenuItem>)
    ensures items == NestItems(f, hids)
  {
    items := [];
    var ii := 0;
    while ii < |hids|
      invariant 0 <= ii <= |hids|
      invariant items == NestItems(f, hids[..ii])
    {
      var itemHId := hids[ii];
      assert hids[..ii + 1][..ii] == hids[..ii];
      if itemHId in f.items.values {
        var item := f.items.values[itemHId];
        items := items + [MenuItem(item.id, item.nameKey, item.descriptionKey, item.price, item.available,
          item.orderIndex, item.createdAt, item.updatedAt, Some(item.state), item.previousState)];
      }
      ii := ii + 1;
    }
    assert hids[..ii] == hids;
  }

  /** The categories come out ordered by orderIndex, one for each entry of the categories map. */
  lemma UnflattenSorted(f: FlatMenu)
    requires f.categories.Valid()
    ensures |Unflatten(f)| == f.categories.Size()
    ensures forall i, j :: 0 <= i < j < |Unflatten(f)| ==> Unflatten(f)[i].orderIndex <= Unflatten(f)[j].orderIndex
  {
    ByOrderIndexIsTotalPreorder();
    var sorted := Sort(f.categories.Entries(), ByOrderIndex);
    SortSorted(f.categories.Entries(), ByOrderIndex);
    assert forall i, j :: 0 <= i < j < |sorted| ==> sorted[i].1.orderIndex <= sorted[j].1.orderIndex;
  }

  /** Every category of the map is nested, with the children listed under its key. */
  lemma UnflattenComplete(f: FlatMenu)
    requires f.categories.Valid()
    ensures forall k :: k in f.categories.values ==>
      exists i :: 0 <= i < |Unflatten(f)| && Unflatten(f)[i] == NestCategory(f, k, f.categories.values[k])
  {
    var entries := f.categories.Entries();
    var sorted := Sort(entries, ByOrderIndex);
    forall k | k in f.categories.values
      ensures exists i :: 0 <= i < |Unflatten(f)| && Unflatten(f)[i] == NestCategory(f, k, f.categories.values[k])
    {
      var j :| 0 <= j < |f.categories.keys| && f.categories.keys[j] == k;
      assert entries[j] == (k, f.categories.values[k]);
      assert (k, f.categories.values[k]) in multiset(sorted);
      var i :| 0 <= i < |sorted| && sorted[i] == (k, f.categories.values[k]);
      assert Unflatten(f)[i] == NestCategory(f, k, f.categories.values[k]);
    }
  }

  // ---------------------------------------------------------------------------
  // The round trip flatten / unflatten
  // ---------------------------------------------------------------------------

  /** An item as it comes back from the flat form: `available` and `_state` filled in. */
  function NormalizeItem(i: MenuItem): MenuItem {
    i.(available := AvailableOrTrue(i.available), state := Some(StateOrNormal(i.state)))
  }

  function NormalizeSubcategory(s: MenuSubcategory): MenuSubcategory {
    s.(items := seq(|s.items|, t requires 0 <= t < |s.items| => NormalizeItem(s.items[t])),
       state := Some(StateOrNormal(s.state)))
  }

  function NormalizeCategory(c: MenuCategory): MenuCategory {
    c.(subcategories := seq(|c.subcategories|, j requires 0 <= j < |c.subcategories| => NormalizeSubcategory(c.subcategories[j])),
       state := Some(StateOrNormal(c.state)))
  }

  lemma NestItemsHeld(f: FlatMenu, c: string, s: MenuSubcategory)
    requires HoldsSubcategory(f, c, s)
    ensures NestItems(f, ChildrenOf(f.children, SubcategoryHId(c, s.id))) == NormalizeSubcategory(s).items
  {
    var hids := ChildrenOf(f.children, SubcategoryHId(c, s.id));
    assert hids == ItemHIds(c, s.id, s.items);
    PresentKeysAll(hids, f.items.values);
    var r := NestItems(f, hids);
    var want := NormalizeSubcategory(s).items;
    assert |r| == |want|;
    forall t | 0 <= t < |r| ensures r[t] == want[t] {
      NestItemAt(f, c, s, hids, t);
    }
  }

  lemma NestItemAt(f: FlatMenu, c: string, s: MenuSubcategory, hids: seq<string>, t: int)
    requires HoldsSubcategory(f, c, s)
    requires hids == ItemHIds(c, s.id, s.items) && PresentKeys(hids, f.items.values) == hids
    requires 0 <= t < |s.items|
    ensures NestItems(f, hids)[t] == NormalizeItem(s.items[t])
  {
    assert hids[t] == ItemHId(c, s.id, s.items[t].id);
    assert f.items.values[hids[t]] == FlatItem(c, s.id, s.items[t]);
  }

  /** A category the flat form holds nests back to itself, defaults filled in. */
  lemma NestCategoryHeld(f: FlatMenu, c: MenuCategory)
    requires HoldsCategory(f, c)
    ensures NestCategory(f, c.id, FlatCategory(c)) == NormalizeCategory(c)
  {
    NestSubcategoriesHeld(f, c);
  }

  lemma NestSubcategoriesHeld(f: FlatMenu, c: MenuCategory)
    requires HoldsCategory(f, c)
    ensures NestSubcategories(f, ChildrenOf(f.children, c.id)) == NormalizeCategory(c).subcategories
  {
    var r := NestSubcategories(f, ChildrenOf(f.children, c.id));
    var want := NormalizeCategory(c).subcategories;
    HeldSubcategoryIds(f, c);
    assert |r| == |want|;
    forall j | 0 <= j < |r| ensures r[j] == want[j] {
      NestSubcategoryAt(f, c, j);
    }
  }

  /** The held children of a held category are exactly the IDs of its subcategories. */
  lemma HeldSubcategoryIds(f: FlatMenu, c: MenuCategory)
    requires HoldsCategory(f, c)
    ensures var hids := ChildrenOf(f.children, c.id);
      hids == SubcategoryHIds(c.id, c.subcategories)
      && PresentKeys(hids, f.subcategories.values) == hids
  {
    var hids := ChildrenOf(f.children, c.id);
    assert hids == SubcategoryHIds(c.id, c.subcategories);
    PresentKeysAll(hids, f.subcategories.values);
  }

  lemma NestSubcategoryAt(f: FlatMenu, c: MenuCategory, j: nat)
    requires HoldsCategory(f, c) && j < |c.subcategories|
    ensures var r := NestSubcategories(f, ChildrenOf(f.children, c.id));
      j < |r| && r[j] == NormalizeSubcategory(c.subcategories[j])
  {
    HeldSubcategoryIds(f, c);
    var s := c.subcategories[j];
    assert HoldsSubcategory(f, c.id, s);
    NestSubcategoryHeld(f, c.id, s);
  }

  /** A subcategory the flat form holds nests back to itself, defaults filled in. */
  lemma NestSubcategoryHeld(f: FlatMenu, c: string, s: MenuSubcategory)
    requires HoldsSubcategory(f, c, s)
    ensures NestSubcategory(f, SubcategoryHId(c, s.id), f.subcategories.values[SubcategoryHId(c, s.id)])
      == NormalizeSubcategory(s)
  {
    NestItemsHeld(f, c, s);
  }

  /** The category entries of the flat form of a menu with distinct category IDs, in nested order. */
  lemma FlattenCategoryEntries(nested: seq<MenuCategory>)
    requires forall i, j :: 0 <= i < j < |nested| ==> nested[i].id != nested[j].id
    requires forall i :: 0 <= i < |nested| ==> StoresCategory(Flatten(nested), nested[i])
    ensures Flatten(nested).categories.Valid()
    ensures |Flatten(nested).categories.Entries()| == |nested|
    ensures forall i :: 0 <= i < |nested| ==>
      Flatten(nested).categories.Entries()[i] == (nested[i].id, FlatCategory(nested[i]))
  {
    var f := Flatten(nested);
    FlattenCategoryKeys(nested);
    FlattenValid(nested);
    var e := f.categories.Entries();
    forall i | 0 <= i < |nested| ensures e[i] == (nested[i].id, FlatCategory(nested[i])) {
      assert f.categories.keys[i] == nested[i].id;
      assert StoresCategory(f, nested[i]);
    }
  }

  /** Unflattening the flat form of a menu in orderIndex order keeps the categories' order. */
  lemma UnflattenFlattenOrder(nested: seq<MenuCategory>)
    requires WellFormed(nested)
    requires forall i, j :: 0 <= i < j < |nested| ==> nested[i].orderIndex <= nested[j].orderIndex
    ensures Flatten(nested).categories.Valid()
    ensures |Unflatten(Flatten(nested))| == |nested|
    ensures forall i :: 0 <= i < |nested| ==>
      Unflatten(Flatten(nested))[i] == NestCategory(Flatten(nested), nested[i].id, FlatCategory(nested[i]))
  {
    var f := Flatten(nested);
    FlattenStoresCategories(nested);
    FlattenCategoryEntries(nested);
    var entries := f.categories.Entries();
    assert SortedBy(entries, ByOrderIndex);
    SortOfSorted(entries, ByOrderIndex);
  }

  /**
   * Unflattening the flat form of a well-formed menu whose categories are already in
   * orderIndex order gives back the menu, with the defaults of `available` and `_state`
   * filled in.
   */
  lemma UnflattenFlatten(nested: seq<MenuCategory>)
    requires WellFormed(nested)
    requires forall i, j :: 0 <= i < j < |nested| ==> nested[i].orderIndex <= nested[j].orderIndex
    ensures Flatten(nested).categories.Valid()
    ensures Unflatten(Flatten(nested)) == seq(|nested|, i requires 0 <= i < |nested| => NormalizeCategory(nested[i]))
  {
    UnflattenFlattenLength(nested);
    UnflattenFlattenEach(nested);
    NormalizedAll(Unflatten(Flatten(nested)), nested);
  }

  lemma UnflattenFlattenEach(nested: seq<MenuCategory>)
    requires WellFormed(nested)
    requires forall i, j :: 0 <= i < j < |nested| ==> nested[i].orderIndex <= nested[j].orderIndex
    ensures Flatten(nested).categories.Valid() && |Unflatten(Flatten(nested))| == |nested|
    ensures forall i :: 0 <= i < |nested| ==> Unflatten(Flatten(nested))[i] == NormalizeCategory(nested[i])
  {
    UnflattenFlattenLength(nested);
    forall i | 0 <= i < |nested| ensures Unflatten(Flatten(nested))[i] == NormalizeCategory(nested[i]) {
      UnflattenFlattenAt(nested, i);
    }
  }

  lemma NormalizedAll(u: seq<MenuCategory>, nested: seq<MenuCategory>)
    requires |u| == |nested| && forall i :: 0 <= i < |u| ==> u[i] == NormalizeCategory(nested[i])
    ensures u == seq(|nested|, i requires 0 <= i < |nested| => NormalizeCategory(nested[i]))
  {
  }

  lemma UnflattenFlattenLength(nested: seq<MenuCategory>)
    requires WellFormed(nested)
    requires forall i, j :: 0 <= i < j < |nested| ==> nested[i].orderIndex <= nested[j].orderIndex
    ensures Flatten(nested).categories.Valid() && |Unflatten(Flatten(nested))| == |nested|
  {
    UnflattenFlattenOrder(nested);
  }

  lemma UnflattenFlattenAt(nested: seq<MenuCategory>, i: nat)
    requires WellFormed(nested) && i < |nested|
    requires forall i, j :: 0 <= i < j < |nested| ==> nested[i].orderIndex <= nested[j].orderIndex
    ensures Flatten(nested).categories.Valid() && |Unflatten(Flatten(nested))| == |nested|
    ensures Unflatten(Flatten(nested))[i] == NormalizeCategory(nested[i])
  {
    UnflattenFlattenOrder(nested);
    FlattenHoldsAt(nested, i);
    NestCategoryHeld(Flatten(nested), nested[i]);
  }

  /** The flat form of a well-formed menu holds each of its categories. */
  lemma FlattenHoldsAt(nested: seq<MenuCategory>, i: nat)
    requires WellFormed(nested) && i < |nested|
    ensures HoldsCategory(Flatten(nested), nested[i])
  {
    FlattenHolds(nested);
  }

  lemma FlattenStoresCategories(nested: seq<MenuCategory>)
    requires WellFormed(nested)
    ensures forall i :: 0 <= i < |nested| ==> StoresCategory(Flatten(nested), nested[i])
  {
    forall i | 0 <= i < |nested| ensures StoresCategory(Flatten(nested), nested[i]) {
      FlattenHoldsAt(nested, i);
    }
  }

  // ---------------------------------------------------------------------------
  // processMenuDataForBackend
  // ---------------------------------------------------------------------------

  /** An item as sent to the backend; a `price` of None is NaN. */
  datatype CleanItem = CleanItem(
    id: Id, nameKey: Value, descriptionKey: Value, price: Option<real>, available: Value,
    orderIndex: int, createdAt: Value, updatedAt: Value)

  /** A subcategory as sent to the backend; `items` is None when the field is not set. */
  datatype CleanSubcategory = CleanSubcategory(
    id: Id, nameKey: Value, orderIndex: int, createdAt: Value, updatedAt: Value,
    items: Option<seq<CleanItem>>)

  datatype CleanCategory = CleanCategory(
    id: Id, nameKey: Value, orderIndex: int, createdAt: Value, updatedAt: Value,
    subcategories: Option<seq<CleanSubcategory>>)

  /** An ID minted by the editor for an entity the backend has not stored yet. */
  predicate IsTempId(id: string) {
    StartsWith(id, "temp-")
  }

  /** `id?.startsWith('temp-') ? null : id`. */
  function CleanId(id: string): (r: Id)
    ensures r.None? <==> IsTempId(id)
    ensures r.Some? ==> r.value == id
  {
    if IsTempId(id) then None else Some(id)
  }

  /** `parseFloat(price)`: a number is itself, a string is parsed, anything else is NaN. */
  function PriceOf(price: Value): (r: Option<real>)
    ensures price.Num? ==> r == Some(price.n)
    ensures price.Str? ==> r == ParseFloat(price.s)
    ensures !price.Num? && !price.Str? ==> r.None?
  {
    match price
    case Num(n) => Some(n)
    case Str(s) => ParseFloat(s)
    case _ => None
  }

  predicate ItemLive(i: MenuItem) { i.state != Some(Deleted) }
  predicate SubcategoryLive(s: MenuSubcategory) { s.state != Some(Deleted) }
  predicate CategoryLive(c: MenuCategory) { c.state != Some(Deleted) }

  function ProcessItem(i: MenuItem): CleanItem {
    CleanItem(CleanId(i.id), i.nameKey, i.descriptionKey, PriceOf(i.price), AvailableOrTrue(i.available),
      i.orderIndex, i.createdAt, i.updatedAt)
  }

  function ProcessSubcategory(s: MenuSubcategory): CleanSubcategory {
    var live := Filter(s.items, ItemLive);
    CleanSubcategory(CleanId(s.id), s.nameKey, s.orderIndex, s.createdAt, s.updatedAt,
      if s.items == [] then None
      else Some(seq(|live|, t requires 0 <= t < |live| => ProcessItem(live[t]))))
  }

  function ProcessCategory(c: MenuCategory): CleanCategory {
    var live := Filter(c.subcategories, SubcategoryLive);
    CleanCategory(CleanId(c.id), c.nameKey, c.orderIndex, c.createdAt, c.updatedAt,
      if c.subcategories == [] then None
      else Some(seq(|live|, j requires 0 <= j < |live| => ProcessSubcategory(live[j]))))
  }

  /** `processMenuDataForBackend(data)`. */
  function ProcessMenuDataForBackend(data: seq<MenuCategory>): seq<CleanCategory> {
    var live := Filter(data, CategoryLive);
    seq(|live|, i requires 0 <= i < |live| => ProcessCategory(live[i]))
  }

  /**
   * The backend receives the categories not marked deleted, in order, each processed;
   * every one of them and nothing else.
   */
  lemma ProcessKeepsLiveCategories(data: seq<MenuCategory>)
    ensures |ProcessMenuDataForBackend(data)| == |Filter(data, CategoryLive)|
    ensures forall i :: 0 <= i < |ProcessMenuDataForBackend(data)| ==>
      ProcessMenuDataForBackend(data)[i] == ProcessCategory(Filter(data, CategoryLive)[i])
    ensures forall x :: x in ProcessMenuDataForBackend(data) <==>
      exists c :: c in data && CategoryLive(c) && x == ProcessCategory(c)
  {
    var live := Filter(data, CategoryLive);
    var r := ProcessMenuDataForBackend(data);
    forall x ensures x in r <==> exists c :: c in data && CategoryLive(c) && x == ProcessCategory(c) {
      if x in r {
        var i :| 0 <= i < |r| && r[i] == x;
        assert live[i] in live;
      }
      if c :| c in data && CategoryLive(c) && x == ProcessCategory(c) {
        assert c in live;
        var i :| 0 <= i < |live| && live[i] == c;
        assert r[i] == x;
      }
    }
  }

  /**
   * A category's subcategories are sent only when it has some; then they are its
   * subcategories not marked deleted, in order, each processed, and nothing else.
   */
  lemma ProcessKeepsLiveSubcategories(c: MenuCategory)
    ensures ProcessCategory(c).subcategories.None? <==> c.subcategories == []
    ensures ProcessCategory(c).subcategories.Some? ==>
      var live := Filter(c.subcategories, SubcategoryLive);
      var subs := ProcessCategory(c).subcategories.value;
      |subs| == |live| && forall j :: 0 <= j < |subs| ==> subs[j] == ProcessSubcategory(live[j])
    ensures ProcessCategory(c).subcategories.Some? ==>
      forall x :: x in ProcessCategory(c).subcategories.value <==>
        exists s :: s in c.subcategories && SubcategoryLive(s) && x == ProcessSubcategory(s)
  {
    if c.subcategories != [] {
      var live := Filter(c.subcategories, SubcategoryLive);
      var subs := ProcessCategory(c).subcategories.value;
      forall x ensures x in subs <==> exists s :: s in c.subcategories && SubcategoryLive(s) && x == ProcessSubcategory(s) {
        if x in subs {
          var j :| 0 <= j < |subs| && subs[j] == x;
          assert live[j] in live;
        }
        if s :| s in c.subcategories && SubcategoryLive(s) && x == ProcessSubcategory(s) {
          assert s in live;
          var j :| 0 <= j < |live| && live[j] == s;
          assert subs[j] == x;
        }
      }
    }
  }

  /**
   * A subcategory's items are sent only when it has some; then they are its items not
   * marked deleted, in order, each processed, and nothing else.
   */
  lemma ProcessKeepsLiveItems(s: MenuSubcategory)
    ensures ProcessSubcategory(s).items.None? <==> s.items == []
    ensures ProcessSubcategory(s).items.Some? ==>
      var live := Filter(s.items, ItemLive);
      var items := ProcessSubcategory(s).items.value;
      |items| == |live| && forall t :: 0 <= t < |items| ==> items[t] == ProcessItem(live[t])
    ensures ProcessSubcategory(s).items.Some? ==>
      forall x :: x in ProcessSubcategory(s).items.value <==>
        exists i :: i in s.items && ItemLive(i) && x == ProcessItem(i)
  {
    if s.items != [] {
      var live := Filter(s.items, ItemLive);
      var items := ProcessSubcategory(s).items.value;
      forall x ensures x in items <==> exists i :: i in s.items && ItemLive(i) && x == ProcessItem(i) {
        if x in items {
          var t :| 0 <= t < |items| && items[t] == x;
          assert live[t] in live;
        }
        if i :| i in s.items && ItemLive(i) && x == ProcessItem(i) {
          assert i in live;
          var t :| 0 <= t < |live| && live[t] == i;
          assert items[t] == x;
        }
      }
    }
  }

  /** No ID sent to the backend is a temporary one, at any level. */
  predicate NoTempIds(data: seq<CleanCategory>) {
    forall c :: c in data ==>
      (c.id.Some? ==> !IsTempId(c.id.value))
      && (c.subcategories.Some? ==> forall s :: s in c.subcategories.value ==>
            (s.id.Some? ==> !IsTempId(s.id.value))
            && (s.items.Some? ==> forall i :: i in s.items.value ==> i.id.Some? ==> !IsTempId(i.id.value)))
  }

  lemma ProcessNoTempIds(data: seq<MenuCategory>)
    ensures NoTempIds(ProcessMenuDataForBackend(data))
  {
  }

  /**
   * An ID reaches the backend exactly when a category that is not deleted carries it
   * and it is not temporary; the categories keep their order.
   */
  lemma ProcessCategoryIds(data: seq<MenuCategory>)
    ensures forall x :: ((exists c :: c in ProcessMenuDataForBackend(data) && c.id == Some(x))
      <==> (exists c :: c in data && CategoryLive(c) && c.id == x && !IsTempId(x)))
  {
    var live := Filter(data, CategoryLive);
    var r := ProcessMenuDataForBackend(data);
    forall x ensures (exists c :: c in r && c.id == Some(x)) ==> (exists c :: c in data && CategoryLive(c) && c.id == x && !IsTempId(x)) {
      if c :| c in r && c.id == Some(x) {
        var i :| 0 <= i < |r| && r[i] == c;
        assert live[i] in live;
        assert live[i] in data;
      }
    }
    forall x ensures (exists c :: c in data && CategoryLive(c) && c.id == x && !IsTempId(x)) ==> (exists c :: c in r && c.id == Some(x)) {
      if c :| c in data && CategoryLive(c) && c.id == x && !IsTempId(x) {
        assert c in live;
        var i :| 0 <= i < |live| && live[i] == c;
        assert r[i] in r;
      }
    }
  }

  /** The number of categories marked deleted. */
  function DeletedCount(data: seq<MenuCategory>): (r: nat)
    ensures r <= |data|
  {
    if data == [] then 0
    else DeletedCount(data[..|data| - 1]) + (if CategoryLive(data[|data| - 1]) then 0 else 1)
  }

  /** A deleted category is dropped: the backend receives one category per live category. */
  lemma {:induction false} ProcessDropsDeleted(data: seq<MenuCategory>)
    ensures |ProcessMenuDataForBackend(data)| == |data| - DeletedCount(data)
  {
    if data != [] {
      ProcessDropsDeleted(data[..|data| - 1]);
    }
  }

  /** Without deleted or temporary entities nothing is dropped and every ID is kept, in order. */
  lemma ProcessKeepsClean(data: seq<MenuCategory>)
    requires forall i :: 0 <= i < |data| ==> CategoryLive(data[i]) && !IsTempId(data[i].id)
    ensures |ProcessMenuDataForBackend(data)| == |data|
    ensures forall i :: 0 <= i < |data| ==> ProcessMenuDataForBackend(data)[i].id == Some(data[i].id)
  {
    FilterAll(data, CategoryLive);
  }
}
