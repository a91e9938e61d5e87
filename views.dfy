/**
 * The recipe and tag view sets. Every read and write goes through the
 * caller's rows only: a list is the caller's rows in a fixed order, and a
 * single-recipe action looks its id up among the caller's recipes, so
 * another user's id is not found. The caller is an explicit parameter.
 */
module Views {
  import opened Wrappers
  import opened Model
  import opened Ordering
  import opened TagResolver
  import opened Serializers

  /** The view-set actions. */
  datatype Action = List | Create | Retrieve | Update | PartialUpdate | Destroy

  /** `get_serializer_class`: the summary shape for `list`, the detail shape otherwise. */
  function SerializerFor(action: Action): (shape: Shape)
    ensures shape == Summary <==> action == List
  {
    if action == List then Summary else Detail
  }

  /** Only the list action renders without a description. */
  lemma OnlyListOmitsDescription(action: Action)
    ensures ("description" in Fields(SerializerFor(action))) <==> action != List
  {
  }

  /** The ids of the caller's recipes. */
  function OwnedRecipeIds(s: StoreState, caller: UserId): set<Id>
  {
    set id | id in s.recipes && s.recipes[id].owner == caller
  }

  /** The ids of the caller's tags. */
  function OwnedTagIds(s: StoreState, caller: UserId): set<Id>
  {
    set id | id in s.tags.rows && s.tags.rows[id].owner == caller
  }

  function RecipeIds(r: seq<RecipeOut>): set<Id>
  {
    set i | 0 <= i < |r| :: r[i].id
  }

  function TagIds(r: seq<TagOut>): set<Id>
  {
    set i | 0 <= i < |r| :: r[i].id
  }

  /** The caller's recipe ids, largest first (`order_by('-id')`). */
  function SortedRecipeIds(s: StoreState, caller: UserId): (ids: seq<Id>)
    ensures forall i :: 0 <= i < |ids| ==> ids[i] in OwnedRecipeIds(s, caller)
    ensures forall id :: id in OwnedRecipeIds(s, caller) ==> id in ids
    ensures forall i, j :: 0 <= i < j < |ids| ==> ids[j] < ids[i]
  {
    IdOrderIsStrictTotal();
    SortDesc(OwnedRecipeIds(s, caller), (a: nat, b: nat) => a < b)
  }

  /** The caller's tag names, greatest first (`order_by('-name')`). */
  function SortedTagNames(s: StoreState, caller: UserId): (names: seq<string>)
    ensures forall i :: 0 <= i < |names| ==> names[i] in OwnedNames(s.tags.rows, caller)
    ensures forall n :: n in OwnedNames(s.tags.rows, caller) ==> n in names
    ensures forall i, j :: 0 <= i < j < |names| ==> Below(names[j], names[i])
  {
    NameOrderIsStrictTotal();
    SortDesc(OwnedNames(s.tags.rows, caller), Below)
  }

  /** Render each listed recipe in the summary shape, in list order. */
  function RenderSummaries(s: StoreState, ids: seq<Id>): (r: seq<RecipeOut>)
    requires forall i :: 0 <= i < |ids| ==> ids[i] in s.recipes
    ensures |r| == |ids|
    ensures forall i :: 0 <= i < |r| ==> r[i].id == ids[i]
    ensures forall i :: 0 <= i < |r| ==> r[i] == Render(Summary, s.tags.rows, r[i].id, s.recipes[r[i].id])
  {
    if ids == [] then []
    else [Render(Summary, s.tags.rows, ids[0], s.recipes[ids[0]])] + RenderSummaries(s, ids[1..])
  }

  lemma RecipeIdsListed(r: seq<RecipeOut>, ids: seq<Id>, owned: set<Id>)
    requires |r| == |ids| && forall i :: 0 <= i < |r| ==> r[i].id == ids[i]
    requires forall i :: 0 <= i < |ids| ==> ids[i] in owned
    requires forall id :: id in owned ==> id in ids
    ensures RecipeIds(r) == owned
  {
  }

  /**
   * The recipe list (`get_queryset` rendered by the list serializer): the
   * caller's recipes and no other, newest (largest id) first, in the
   * summary shape.
   */
  function RecipeList(s: StoreState, caller: UserId): (r: seq<RecipeOut>)
    ensures RecipeIds(r) == OwnedRecipeIds(s, caller)
    ensures forall i :: 0 <= i < |r| ==>
      && r[i].id in s.recipes && s.recipes[r[i].id].owner == caller
      && r[i] == Render(SerializerFor(List), s.tags.rows, r[i].id, s.recipes[r[i].id])
    ensures forall i, j :: 0 <= i < j < |r| ==> r[j].id < r[i].id
  {
    var ids := SortedRecipeIds(s, caller);
    var r := RenderSummaries(s, ids);
    RecipeIdsListed(r, ids, OwnedRecipeIds(s, caller));
    r
  }

  /** Pair each listed name with the caller's tag of that name. */
  function TagsNamed(s: StoreState, caller: UserId, names: seq<string>): (r: seq<TagOut>)
    requires UniqueNames(s.tags.rows)
    requires forall i :: 0 <= i < |names| ==> names[i] in OwnedNames(s.tags.rows, caller)
    ensures |r| == |names|
    ensures forall i :: 0 <= i < |r| ==>
      && r[i].name == names[i]
      && r[i].id in s.tags.rows && s.tags.rows[r[i].id] == Tag(names[i], caller)
  {
    if names == [] then []
    else [TagOut(FindTag(s.tags.rows, caller, names[0]).value, names[0])] + TagsNamed(s, caller, names[1..])
  }

  lemma TagIdsListed(s: StoreState, caller: UserId, names: seq<string>, r: seq<TagOut>)
    requires UniqueNames(s.tags.rows)
    requires forall n :: n in OwnedNames(s.tags.rows, caller) ==> n in names
    requires |r| == |names|
    requires forall i :: 0 <= i < |r| ==> r[i].id in s.tags.rows && s.tags.rows[r[i].id] == Tag(names[i], caller)
    ensures TagIds(r) == OwnedTagIds(s, caller)
  {
    var rows := s.tags.rows;
    forall id | id in OwnedTagIds(s, caller) ensures id in TagIds(r) {
      assert rows[id].name in OwnedNames(rows, caller);
      var i :| 0 <= i < |names| && names[i] == rows[id].name;
      assert rows[r[i].id] == rows[id];
    }
  }

  /**
   * The tag list (`TagViewSet.get_queryset`): the caller's tags and no
   * other, in descending name order.
   */
  function TagList(s: StoreState, caller: UserId): (r: seq<TagOut>)
    requires Inv(s)
    ensures TagIds(r) == OwnedTagIds(s, caller)
    ensures forall i :: 0 <= i < |r| ==>
      r[i].id in s.tags.rows && s.tags.rows[r[i].id] == Tag(r[i].name, caller)
    ensures forall i, j :: 0 <= i < j < |r| ==> Below(r[j].name, r[i].name)
  {
    var names := SortedTagNames(s, caller);
    var r := TagsNamed(s, caller, names);
    TagIdsListed(s, caller, names, r);
    r
  }

  /** `get_object`: recipe `id` if the caller owns it; otherwise not found. */
  function Lookup(s: StoreState, caller: UserId, id: Id): (r: Option<Recipe>)
    ensures r.Some? <==> id in OwnedRecipeIds(s, caller)
    ensures r.Some? ==> r.value == s.recipes[id]
  {
    if id in s.recipes && s.recipes[id].owner == caller then Some(s.recipes[id]) else None
  }

  /** The retrieve action: the caller's recipe in the detail shape, or not found. */
  function RetrieveRecipe(s: StoreState, caller: UserId, id: Id): (r: Option<RecipeOut>)
    ensures r.Some? <==> id in s.recipes && s.recipes[id].owner == caller
    ensures r.Some? ==> r.value == Render(SerializerFor(Retrieve), s.tags.rows, id, s.recipes[id])
  {
    match Lookup(s, caller, id)
    case Some(recipe) => Some(Render(Detail, s.tags.rows, id, recipe))
    case None => None
  }

  /** Another user's recipe is not found, exactly as an id that does not exist. */
  lemma OtherUsersRecipeNotFound(s: StoreState, caller: UserId, id: Id)
    requires id in s.recipes && s.recipes[id].owner != caller
    ensures RetrieveRecipe(s, caller, id) == RetrieveRecipe(s.(recipes := s.recipes - {id}), caller, id)
    ensures RetrieveRecipe(s, caller, id).None?
  {
  }

  /**
   * `s'` differs from `s` only in the caller's rows: every existing tag is
   * kept, every new tag is the caller's, and every recipe of another user is
   * still there, unchanged.
   */
  predicate ScopedTo(s: StoreState, s': StoreState, caller: UserId)
  {
    && Extends(s.tags.rows, s'.tags.rows)
    && (forall id :: id in s'.tags.rows && id !in s.tags.rows ==> s'.tags.rows[id].owner == caller)
    && (forall id :: id in s.recipes && s.recipes[id].owner != caller ==>
          id in s'.recipes && s'.recipes[id] == s.recipes[id])
    && (forall id :: id in s'.recipes && id !in s.recipes ==> s'.recipes[id].owner == caller)
  }

  /**
   * `perform_create`: create with the caller as owner, so the new recipe
   * is the caller's whatever the request carried.
   */
  function PerformCreate(s: StoreState, caller: UserId, data: RecipeData): (r: (StoreState, Id))
    requires Inv(s)
    ensures Inv(r.0) && ScopedTo(s, r.0, caller)
    ensures r.1 in OwnedRecipeIds(r.0, caller) && r.1 !in s.recipes
    ensures r.0.recipes[r.1].tags == TagIdsNamed(r.0.tags.rows, caller, data.tags.GetOr([]))
  {
    Serializers.Create(s, caller, caller, data)
  }

  /** A create without a `tags` key is a create with an empty tag list. */
  lemma CreateWithoutTagsIsEmptyList(s: StoreState, caller: UserId, data: RecipeData)
    requires Inv(s) && data.tags.None?
    ensures PerformCreate(s, caller, data) == PerformCreate(s, caller, data.(tags := Some([])))
    ensures PerformCreate(s, caller, data).0.recipes[PerformCreate(s, caller, data).1].tags == {}
  {
  }

  /** The update actions (full and partial): update the caller's recipe, or not found. */
  function UpdateRecipe(s: StoreState, caller: UserId, id: Id, data: RecipeData): (r: Option<StoreState>)
    requires Inv(s)
    ensures r.Some? <==> id in OwnedRecipeIds(s, caller)
    ensures r.Some? ==> Inv(r.value) && ScopedTo(s, r.value, caller)
    ensures r.Some? ==> r.value.recipes.Keys == s.recipes.Keys
    ensures r.Some? ==> forall k :: k in s.recipes && k != id ==> r.value.recipes[k] == s.recipes[k]
  {
    match Lookup(s, caller, id)
    case Some(_) => Some(Serializers.Update(s, caller, id, data))
    case None => None
  }

  /** The destroy action: delete the caller's recipe (its links go with it), or not found. */
  function DestroyRecipe(s: StoreState, caller: UserId, id: Id): (r: Option<StoreState>)
    requires Inv(s)
    ensures r.Some? <==> id in OwnedRecipeIds(s, caller)
    ensures r.Some? ==> Inv(r.value) && ScopedTo(s, r.value, caller)
    ensures r.Some? ==> r.value.recipes.Keys == s.recipes.Keys - {id} && r.value.tags == s.tags
    ensures r.Some? ==> forall k :: k in s.recipes && k != id ==> r.value.recipes[k] == s.recipes[k]
  {
    match Lookup(s, caller, id)
    case Some(_) => Some(s.(recipes := s.recipes - {id}))
    case None => None
  }

  /** Two descriptors named "spicy" on a first create give one tag row, linked once. */
  lemma RepeatedNameMakesOneTag(caller: UserId, data: RecipeData)
    requires data.tags == Some(["spicy", "spicy"])
    ensures PerformCreate(Empty, caller, data).0.tags.rows == map[1 := Tag("spicy", caller)]
    ensures PerformCreate(Empty, caller, data).0.recipes[PerformCreate(Empty, caller, data).1].tags == {1}
  {
    ResolveDuplicateName(Empty.tags, caller, ["spicy"], "spicy");
    assert ["spicy"] + ["spicy"] == ["spicy", "spicy"];
    assert ["spicy"][..0] == [];
  }

  /** Two users who each tag a recipe "vegan" get two distinct tag rows. */
  lemma SameNameDifferentOwners(u1: UserId, u2: UserId, d1: RecipeData, d2: RecipeData)
    requires u1 != u2 && d1.tags == Some(["vegan"]) && d2.tags == Some(["vegan"])
    ensures
      var (s1, _) := PerformCreate(Empty, u1, d1);
      var (s2, _) := PerformCreate(s1, u2, d2);
      s2.tags.rows == map[1 := Tag("vegan", u1), 2 := Tag("vegan", u2)]
  {
  }

  /** An update whose `tags` key holds an empty list drops every link and creates no tag. */
  lemma UpdateWithEmptyTagsClearsLinks(s: StoreState, caller: UserId, id: Id, data: RecipeData)
    requires Inv(s) && id in OwnedRecipeIds(s, caller) && data.tags == Some([])
    ensures UpdateRecipe(s, caller, id, data).value.recipes[id].tags == {}
    ensures UpdateRecipe(s, caller, id, data).value.tags == s.tags
  {
  }
}
