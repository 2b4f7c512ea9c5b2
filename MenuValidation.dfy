/**
 * The validation of the menu being edited (admin/src/hooks/useMenuValidation.js): a walk
 * over the categories, their subcategories and their items that builds a nested tree of
 * error objects, each keyed by the entity's own ID and attached only when it is non-empty.
 */
module MenuValidation {
  import opened Wrappers
  import opened Strings
  import opened OrderedMaps
  import opened MenuDataUtils
  import opened EntityOperations

  const NameMessage := "El nombre debe tener al menos 3 caracteres"
  const PriceRequiredMessage := "El precio es requerido"
  const PricePositiveMessage := "El precio debe ser un número positivo"

  datatype ItemErrors = ItemErrors(nameKey: Option<string>, price: Option<string>)
  datatype SubcategoryErrors = SubcategoryErrors(nameKey: Option<string>, items: Option<map<string, ItemErrors>>)
  datatype CategoryErrors = CategoryErrors(nameKey: Option<string>,
    subcategories: Option<map<string, SubcategoryErrors>>)

  /** A name is rejected when it is missing or its trimmed text is shorter than 3 characters. */
  predicate NameTooShort(v: Value) {
    match v
    case Str(s) => |Trim(s)| < 3
    case _ => true
  }

  /** The name check shared by the three levels. */
  function NameError(v: Value): (r: Option<string>)
    ensures r.Some? <==> NameTooShort(v)
    ensures r.Some? ==> r.value == NameMessage
    ensures v.Str? && |v.s| < 3 ==> r.Some?
  {
    if NameTooShort(v) then Some(NameMessage) else None
  }

  predicate PriceMissing(v: Value) {
    v == Undefined || v == Null || v == Str("")
  }

  /** The price check: a missing price is required; one that parses to NaN or a negative number is refused. */
  function PriceError(v: Value): (r: Option<string>)
    ensures r == Some(PriceRequiredMessage) <==> PriceMissing(v)
    ensures r == Some(PricePositiveMessage) <==> !PriceMissing(v) && (PriceOf(v).None? || PriceOf(v).value < 0.0)
    ensures r.None? <==> !PriceMissing(v) && PriceOf(v).Some? && PriceOf(v).value >= 0.0
    ensures v.Num? ==> (r.None? <==> v.n >= 0.0)
  {
    if PriceMissing(v) then Some(PriceRequiredMessage)
    else
      match PriceOf(v)
      case None => Some(PricePositiveMessage)
      case Some(p) => if p < 0.0 then Some(PricePositiveMessage) else None
  }

  /**
   * The object `errors` after `errors[id] = e` for every present entry in turn: an ID is a
   * key exactly when some entry carries it, and it holds the last such entry's errors.
   */
  function Collect<E>(entries: seq<Option<(string, E)>>): map<string, E> {
    if entries == [] then map[]
    else
      var r0 := Collect(entries[..|entries| - 1]);
      match entries[|entries| - 1]
      case None => r0
      case Some((id, e)) => r0[id := e]
  }

  /** Every key of the object comes from an entry, and holds the errors of the last entry with that ID. */
  lemma {:induction false} CollectFrom<E>(entries: seq<Option<(string, E)>>, id: string) returns (j: nat)
    requires id in Collect(entries)
    ensures j < |entries| && entries[j] == Some((id, Collect(entries)[id]))
    ensures forall j' :: j < j' < |entries| && entries[j'].Some? ==> entries[j'].value.0 != id
  {
    var init := entries[..|entries| - 1];
    var last := entries[|entries| - 1];
    if last.Some? && last.value.0 == id {
      j := |entries| - 1;
    } else {
      j := CollectFrom(init, id);
      assert forall j' :: 0 <= j' < |init| ==> init[j'] == entries[j'];
    }
  }

  /** Every entry's ID is a key of the object. */
  lemma {:induction false} CollectHas<E>(entries: seq<Option<(string, E)>>, j: nat)
    requires j < |entries| && entries[j].Some?
    ensures entries[j].value.0 in Collect(entries)
  {
    var init := entries[..|entries| - 1];
    if j < |entries| - 1 {
      assert init[j] == entries[j];
      CollectHas(init, j);
    }
  }

  lemma CollectStep<E>(entries: seq<Option<(string, E)>>, i: nat)
    requires i < |entries|
    ensures Collect(entries[..i + 1]) ==
      match entries[i] case None => Collect(entries[..i]) case Some((id, e)) => Collect(entries[..i])[id := e]
  {
    assert entries[..i + 1][..i] == entries[..i];
  }

  // ---------------------------------------------------------------------------
  // Items
  // ---------------------------------------------------------------------------

  /** `itemErrors` of one item, or None when the object stays empty. */
  function ItemErrorsOf(item: Entity): (r: Option<ItemErrors>)
    ensures r.Some? <==> NameTooShort(item.nameKey) || PriceError(item.price).Some?
    ensures r.Some? ==> r.value.nameKey == NameError(item.nameKey) && r.value.price == PriceError(item.price)
  {
    var e := ItemErrors(NameError(item.nameKey), PriceError(item.price));
    if e.nameKey.Some? || e.price.Some? then Some(e) else None
  }

  /** What the item with key `h` adds to `itemsErrors`: nothing when it is missing or valid. */
  function ItemEntry(items: map<string, Entity>, h: string): Option<(string, ItemErrors)> {
    if h in items && ItemErrorsOf(items[h]).Some? then Some((items[h].id, ItemErrorsOf(items[h]).value)) else None
  }

  function ItemEntries(items: map<string, Entity>, hids: seq<string>): (r: seq<Option<(string, ItemErrors)>>)
    ensures |r| == |hids| && forall j :: 0 <= j < |hids| ==> r[j] == ItemEntry(items, hids[j])
  {
    seq(|hids|, j requires 0 <= j < |hids| => ItemEntry(items, hids[j]))
  }

  /** `itemsErrors` of the subcategory with key `subHId`. */
  function ItemsErrors(items: map<string, Entity>, children: map<string, seq<string>>, subHId: string): map<string, ItemErrors> {
    Collect(ItemEntries(items, ChildList(children, Some(subHId))))
  }

  // ---------------------------------------------------------------------------
  // Subcategories
  // ---------------------------------------------------------------------------

  function SubcategoryErrorsOf(sub: Entity, subHId: string, items: map<string, Entity>,
    children: map<string, seq<string>>): (r: Option<SubcategoryErrors>)
    ensures var itemsErrors := ItemsErrors(items, children, subHId);
      (r.Some? <==> NameTooShort(sub.nameKey) || itemsErrors != map[])
      && (r.Some? ==> (r.value.nameKey == NameError(sub.nameKey)
        && r.value.items == if itemsErrors == map[] then None else Some(itemsErrors)))
  {
    var itemsErrors := ItemsErrors(items, children, subHId);
    var e := SubcategoryErrors(NameError(sub.nameKey), if itemsErrors != map[] then Some(itemsErrors) else None);
    if e.nameKey.Some? || e.items.Some? then Some(e) else None
  }

  function SubcategoryEntry(subcategories: map<string, Entity>, items: map<string, Entity>,
    children: map<string, seq<string>>, h: string): Option<(string, SubcategoryErrors)>
  {
    if h in subcategories && SubcategoryErrorsOf(subcategories[h], h, items, children).Some? then
      Some((subcategories[h].id, SubcategoryErrorsOf(subcategories[h], h, items, children).value))
    else None
  }

  function SubcategoryEntries(subcategories: map<string, Entity>, items: map<string, Entity>,
    children: map<string, seq<string>>, hids: seq<string>): (r: seq<Option<(string, SubcategoryErrors)>>)
    ensures |r| == |hids| && forall j :: 0 <= j < |hids| ==> r[j] == SubcategoryEntry(subcategories, items, children, hids[j])
  {
    seq(|hids|, j requires 0 <= j < |hids| => SubcategoryEntry(subcategories, items, children, hids[j]))
  }

  function SubcategoriesErrors(subcategories: map<string, Entity>, items: map<string, Entity>,
    children: map<string, seq<string>>, catHId: string): map<string, SubcategoryErrors>
  {
    Collect(SubcategoryEntries(subcategories, items, children, ChildList(children, Some(catHId))))
  }

  // ---------------------------------------------------------------------------
  // Categories
  // ---------------------------------------------------------------------------

  function CategoryErrorsOf(cat: Entity, catHId: string, subcategories: map<string, Entity>,
    items: map<string, Entity>, children: map<string, seq<string>>): (r: Option<CategoryErrors>)
    ensures var subErrors := SubcategoriesErrors(subcategories, items, children, catHId);
      (r.Some? <==> NameTooShort(cat.nameKey) || subErrors != map[])
      && (r.Some? ==> (r.value.nameKey == NameError(cat.nameKey)
        && r.value.subcategories == if subErrors == map[] then None else Some(subErrors)))
  {
    var subErrors := SubcategoriesErrors(subcategories, items, children, catHId);
    var e := CategoryErrors(NameError(cat.nameKey), if subErrors != map[] then Some(subErrors) else None);
    if e.nameKey.Some? || e.subcategories.Some? then Some(e) else None
  }

  function CategoryEntry(categories: map<string, Entity>, subcategories: map<string, Entity>,
    items: map<string, Entity>, children: map<string, seq<string>>, h: string): Option<(string, CategoryErrors)>
  {
    if h in categories && CategoryErrorsOf(categories[h], h, subcategories, items, children).Some? then
      Some((categories[h].id, CategoryErrorsOf(categories[h], h, subcategories, items, children).value))
    else None
  }

  function CategoryEntries(categories: OrderedMap<Entity>, subcategories: map<string, Entity>,
    items: map<string, Entity>, children: map<string, seq<string>>): (r: seq<Option<(string, CategoryErrors)>>)
    ensures |r| == |categories.keys|
    ensures forall j :: 0 <= j < |r| ==>
      r[j] == CategoryEntry(categories.values, subcategories, items, children, categories.keys[j])
  {
    seq(|categories.keys|, j requires 0 <= j < |categories.keys| =>
      CategoryEntry(categories.values, subcategories, items, children, categories.keys[j]))
  }

  /** `validateMenuData()`: the error tree of the whole menu, keyed by category ID. */
  function Validate(categories: OrderedMap<Entity>, subcategories: map<string, Entity>,
    items: map<string, Entity>, children: map<string, seq<string>>): (r: map<string, CategoryErrors>)
    ensures categories.keys == [] ==> r == map[]
  {
    Collect(CategoryEntries(categories, subcategories, items, children))
  }

  // ---------------------------------------------------------------------------
  // Properties of the error tree
  // ---------------------------------------------------------------------------

  ghost predicate ItemErrorsNonEmpty(e: ItemErrors) {
    e.nameKey.Some? || e.price.Some?
  }

  ghost predicate SubcategoryErrorsNonEmpty(e: SubcategoryErrors) {
    (e.nameKey.Some? || e.items.Some?)
    && (e.items.Some? ==> (e.items.value != map[]
      && forall id :: id in e.items.value ==> ItemErrorsNonEmpty(e.items.value[id])))
  }

  ghost predicate CategoryErrorsNonEmpty(e: CategoryErrors) {
    (e.nameKey.Some? || e.subcategories.Some?)
    && (e.subcategories.Some? ==> (e.subcategories.value != map[]
      && forall id :: id in e.subcategories.value ==> SubcategoryErrorsNonEmpty(e.subcategories.value[id])))
  }

  lemma ItemsErrorsNonEmpty(items: map<string, Entity>, children: map<string, seq<string>>, subHId: string)
    ensures forall id :: id in ItemsErrors(items, children, subHId) ==>
      ItemErrorsNonEmpty(ItemsErrors(items, children, subHId)[id])
  {
    var r := ItemsErrors(items, children, subHId);
    var entries := ItemEntries(items, ChildList(children, Some(subHId)));
    forall id | id in r ensures ItemErrorsNonEmpty(r[id]) {
      var j := CollectFrom(entries, id);
    }
  }

  lemma SubcategoriesErrorsNonEmpty(subcategories: map<string, Entity>, items: map<string, Entity>,
    children: map<string, seq<string>>, catHId: string)
    ensures forall id :: id in SubcategoriesErrors(subcategories, items, children, catHId) ==>
      SubcategoryErrorsNonEmpty(SubcategoriesErrors(subcategories, items, children, catHId)[id])
  {
    var r := SubcategoriesErrors(subcategories, items, children, catHId);
    var hids := ChildList(children, Some(catHId));
    var entries := SubcategoryEntries(subcategories, items, children, hids);
    forall id | id in r ensures SubcategoryErrorsNonEmpty(r[id]) {
      var j := CollectFrom(entries, id);
      ItemsErrorsNonEmpty(items, children, hids[j]);
    }
  }

  /** Every error object anywhere in the tree has at least one field: empty objects are never attached. */
  lemma ValidateNonEmpty(categories: OrderedMap<Entity>, subcategories: map<string, Entity>,
    items: map<string, Entity>, children: map<string, seq<string>>)
    ensures var r := Validate(categories, subcategories, items, children);
      forall id :: id in r ==> CategoryErrorsNonEmpty(r[id])
  {
    var r := Validate(categories, subcategories, items, children);
    var entries := CategoryEntries(categories, subcategories, items, children);
    forall id | id in r ensures CategoryErrorsNonEmpty(r[id]) {
      var j := CollectFrom(entries, id);
      SubcategoriesErrorsNonEmpty(subcategories, items, children, categories.keys[j]);
    }
  }

  /**
   * The error tree is keyed by the IDs of exactly the categories that have some error; the
   * category whose name is too short is reported with the name message when no other
   * category shares its ID.
   */
  lemma ValidateKeys(categories: OrderedMap<Entity>, subcategories: map<string, Entity>,
    items: map<string, Entity>, children: map<string, seq<string>>, j: nat)
    requires categories.Valid() && j < |categories.keys|
    ensures var r := Validate(categories, subcategories, items, children);
      var h := categories.keys[j];
      var cat := categories.values[h];
      (CategoryErrorsOf(cat, h, subcategories, items, children).Some? ==> cat.id in r)
      && (NameTooShort(cat.nameKey)
        && (forall j' :: 0 <= j' < |categories.keys| && j' != j ==> categories.values[categories.keys[j']].id != cat.id)
        ==> r[cat.id].nameKey == Some(NameMessage))
  {
    var r := Validate(categories, subcategories, items, children);
    var entries := CategoryEntries(categories, subcategories, items, children);
    var h := categories.keys[j];
    var cat := categories.values[h];
    if CategoryErrorsOf(cat, h, subcategories, items, children).Some? {
      assert entries[j].Some? && entries[j].value.0 == cat.id;
      CollectHas(entries, j);
    }
    if NameTooShort(cat.nameKey)
      && (forall j' :: 0 <= j' < |categories.keys| && j' != j ==> categories.values[categories.keys[j']].id != cat.id)
    {
      assert entries[j].Some? && entries[j].value.0 == cat.id;
      CollectHas(entries, j);
      var k := CollectFrom(entries, cat.id);
      assert categories.keys[k] in categories.values;
      assert k == j;
    }
  }

  /** `validationErrors` as the effect sets it: the error tree while editing, `{}` otherwise. */
  function ValidationErrors(isEditing: bool, categories: OrderedMap<Entity>, subcategories: map<string, Entity>,
    items: map<string, Entity>, children: map<string, seq<string>>): (r: map<string, CategoryErrors>)
    ensures !isEditing ==> r == map[]
  {
    if isEditing then Validate(categories, subcategories, items, children) else map[]
  }

  /** `hasErrors()`. */
  predicate HasErrors(validationErrors: map<string, CategoryErrors>) {
    |validationErrors| > 0
  }

  // ---------------------------------------------------------------------------
  // The nested loops
  // ---------------------------------------------------------------------------

  /** The inner `forEach` over the item IDs of one subcategory. */
  method ValidateItems(items: map<string, Entity>, itemHIds: seq<string>) returns (itemsErrors: map<string, ItemErrors>)
    ensures itemsErrors == Collect(ItemEntries(items, itemHIds))
  {
    var entries := ItemEntries(items, itemHIds);
    itemsErrors := map[];
    var i := 0;
    while i < |itemHIds|
      invariant 0 <= i <= |itemHIds|
      invariant itemsErrors == Collect(entries[..i])
    {
      CollectStep(entries, i);
      var itemHId := itemHIds[i];
      if itemHId in items {
        var item := items[itemHId];
        var itemErrors := ItemErrors(NameError(item.nameKey), PriceError(item.price));
        if itemErrors.nameKey.Some? || itemErrors.price.Some? {
          itemsErrors := itemsErrors[item.id := itemErrors];
        }
      }
      i := i + 1;
    }
    assert entries[..i] == entries;
  }

  /** The middle `forEach` over the subcategory IDs of one category. */
  method ValidateSubcategories(subcategories: map<string, Entity>, items: map<string, Entity>,
    children: map<string, seq<string>>, subcategoryHIds: seq<string>)
    returns (subcategoriesErrors: map<string, SubcategoryErrors>)
    ensures subcategoriesErrors == Collect(SubcategoryEntries(subcategories, items, children, subcategoryHIds))
  {
    var entries := SubcategoryEntries(subcategories, items, children, subcategoryHIds);
    subcategoriesErrors := map[];
    var i := 0;
    while i < |subcategoryHIds|
      invariant 0 <= i <= |subcategoryHIds|
      invariant subcategoriesErrors == Collect(entries[..i])
    {
      CollectStep(entries, i);
      var subcategoryHId := subcategoryHIds[i];
      if subcategoryHId in subcategories {
        var subcategory := subcategories[subcategoryHId];
        var itemsErrors := ValidateItems(items, ChildList(children, Some(subcategoryHId)));
        var subcategoryErrors := SubcategoryErrors(NameError(subcategory.nameKey),
          if itemsErrors != map[] then Some(itemsErrors) else None);
        if subcategoryErrors.nameKey.Some? || subcategoryErrors.items.Some? {
          subcategoriesErrors := subcategoriesErrors[subcategory.id := subcategoryErrors];
        }
      }
      i := i + 1;
    }
    assert entries[..i] == entries;
  }

  /** `validateMenuData()`: the outer `forEach` over the categories map in insertion order. */
  method ValidateMenuData(categories: OrderedMap<Entity>, subcategories: map<string, Entity>,
    items: map<string, Entity>, children: map<string, seq<string>>) returns (errors: map<string, CategoryErrors>)
    ensures errors == Validate(categories, subcategories, items, children)
  {
    var entries := CategoryEntries(categories, subcategories, items, children);
    errors := map[];
    var i := 0;
    while i < |categories.keys|
      invariant 0 <= i <= |categories.keys|
      invariant errors == Collect(entries[..i])
    {
      CollectStep(entries, i);
      var categoryHId := categories.keys[i];
      assert entries[i] == CategoryEntry(categories.values, subcategories, items, children, categoryHId);
      if categoryHId in categories.values {
        var category := categories.values[categoryHId];
        var subcategoriesErrors := ValidateSubcategories(subcategories, items, children,
          ChildList(children, Some(categoryHId)));
        var categoryErrors := CategoryErrors(NameError(category.nameKey),
          if subcategoriesErrors != map[] then Some(subcategoriesErrors) else None);
        if categoryErrors.nameKey.Some? || categoryErrors.subcategories.Some? {
          errors := errors[category.id := categoryErrors];
        }
      }
      i := i + 1;
    }
    assert entries[..i] == entries;
  }
}
