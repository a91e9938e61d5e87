/**
 * The recipe serializers: what a create or an update does to the store, and
 * the two response shapes (summary and detail). Each operation is a function
 * from the store before to the store after; the class in store.dfy performs
 * the same steps in place.
 */
module Serializers {
  import opened Wrappers
  import opened Model
  import opened TagResolver

  /**
   * Tag attachment (`_get_or_create_tag`): resolve `names` for the
   * requesting user and add each resolved tag to recipe `rid`'s tag set.
   */
  function AttachTags(s: StoreState, authUser: UserId, names: seq<string>, rid: Id): (r: StoreState)
    requires ValidTable(s.tags) && rid in s.recipes
    ensures ValidTable(r.tags)
    ensures Extends(s.tags.rows, r.tags.rows)
    ensures forall id :: id in r.tags.rows && id !in s.tags.rows ==> r.tags.rows[id].owner == authUser
    ensures forall n :: n in names ==> n in OwnedNames(r.tags.rows, authUser)
    ensures r.recipes.Keys == s.recipes.Keys && r.nextRecipe == s.nextRecipe
    ensures forall id :: id in s.recipes && id != rid ==> r.recipes[id] == s.recipes[id]
    ensures r.recipes[rid] == s.recipes[rid].(tags := s.recipes[rid].tags + TagIdsNamed(r.tags.rows, authUser, names))
  {
    ResolveLinksExactly(s.tags, authUser, names);
    ResolveOnlyAddsCallerTags(s.tags, authUser, names);
    var (t, ids) := Resolve(s.tags, authUser, names);
    var linked := s.recipes[rid];
    s.(tags := t, recipes := s.recipes[rid := linked.(tags := linked.tags + ids)])
  }

  /**
   * Attribute assignment (the `setattr` loop of `update`): each scalar
   * field present in `data` is overwritten, every other field is kept.
   */
  function Overwrite(r: Recipe, data: RecipeData): (r': Recipe)
    ensures r'.owner == r.owner && r'.tags == r.tags
  {
    r.(title := data.title.GetOr(r.title),
       description := data.description.GetOr(r.description),
       timeMinutes := data.timeMinutes.GetOr(r.timeMinutes),
       price := data.price.GetOr(r.price),
       link := data.link.GetOr(r.link))
  }

  /** A present field takes the payload's value; an absent field keeps the old one. */
  lemma OverwriteOnlyPresentFields(r: Recipe, data: RecipeData)
    ensures data.title.Some? ==> Overwrite(r, data).title == data.title.value
    ensures data.title.None? ==> Overwrite(r, data).title == r.title
    ensures data.description.Some? ==> Overwrite(r, data).description == data.description.value
    ensures data.description.None? ==> Overwrite(r, data).description == r.description
    ensures data.timeMinutes.Some? ==> Overwrite(r, data).timeMinutes == data.timeMinutes.value
    ensures data.timeMinutes.None? ==> Overwrite(r, data).timeMinutes == r.timeMinutes
    ensures data.price.Some? ==> Overwrite(r, data).price == data.price.value
    ensures data.price.None? ==> Overwrite(r, data).price == r.price
    ensures data.link.Some? ==> Overwrite(r, data).link == data.link.value
    ensures data.link.None? ==> Overwrite(r, data).link == r.link
  {
  }

  /** Writing the same payload twice is the same as writing it once. */
  lemma OverwriteIdempotent(r: Recipe, data: RecipeData)
    ensures Overwrite(Overwrite(r, data), data) == Overwrite(r, data)
  {
  }

  /** A payload with no scalar key leaves the recipe as it was. */
  lemma OverwriteEmptyIsIdentity(r: Recipe, tags: Option<seq<string>>)
    ensures Overwrite(r, RecipeData(None, None, None, None, None, tags)) == r
  {
  }

  /**
   * The row a create inserts before tags are attached: the payload's scalar
   * fields over empty defaults, the given owner, no tags.
   */
  function NewRecipe(data: RecipeData, owner: UserId): (r: Recipe)
    ensures r.owner == owner && r.tags == {}
  {
    Overwrite(Recipe("", "", 0, 0, "", owner, {}), data)
  }

  /**
   * `create`: take the tag names out of the payload (absent means none),
   * insert the recipe under the next id with `owner` (the `user` given to
   * `save`), then attach the tags for the requesting user `authUser`.
   */
  function Create(s: StoreState, authUser: UserId, owner: UserId, data: RecipeData): (r: (StoreState, Id))
    requires Inv(s)
    ensures r.1 !in s.recipes && r.0.recipes.Keys == s.recipes.Keys + {r.1}
    ensures forall id :: id in s.recipes ==> r.0.recipes[id] == s.recipes[id]
    ensures r.0.recipes[r.1].owner == owner
    ensures r.0.recipes[r.1] ==
      NewRecipe(data, owner).(tags := TagIdsNamed(r.0.tags.rows, authUser, data.tags.GetOr([])))
    ensures Extends(s.tags.rows, r.0.tags.rows)
    ensures forall id :: id in r.0.tags.rows && id !in s.tags.rows ==> r.0.tags.rows[id].owner == authUser
    ensures owner == authUser ==> Inv(r.0)
  {
    var id := s.nextRecipe;
    var s1 := s.(recipes := s.recipes[id := NewRecipe(data, owner)], nextRecipe := id + 1);
    var r := AttachTags(s1, authUser, data.tags.GetOr([]), id);
    assert owner == authUser ==> LinksOwned(r.tags.rows, r.recipes) by {
      if owner == authUser {
        forall rid, t | rid in r.recipes && t in r.recipes[rid].tags
          ensures t in r.tags.rows && r.tags.rows[t].owner == r.recipes[rid].owner
        {
          if rid != id {
            assert r.recipes[rid] == s.recipes[rid];
          }
        }
      }
    }
    (r, id)
  }

  /**
   * `update` of recipe `id`: when the payload carries `tags` (even an empty
   * list) the recipe's links are cleared and the list is resolved afresh;
   * without `tags` the links are left alone. Then the present scalar fields
   * are overwritten.
   */
  function Update(s: StoreState, authUser: UserId, id: Id, data: RecipeData): (r: StoreState)
    requires Inv(s) && id in s.recipes
    ensures r.recipes.Keys == s.recipes.Keys && r.nextRecipe == s.nextRecipe
    ensures forall k :: k in s.recipes && k != id ==> r.recipes[k] == s.recipes[k]
    ensures r.recipes[id] == Overwrite(s.recipes[id], data).(tags := r.recipes[id].tags)
    ensures data.tags.None? ==> r.tags == s.tags && r.recipes[id].tags == s.recipes[id].tags
    ensures data.tags.Some? ==> r.recipes[id].tags == TagIdsNamed(r.tags.rows, authUser, data.tags.value)
    ensures Extends(s.tags.rows, r.tags.rows)
    ensures forall k :: k in r.tags.rows && k !in s.tags.rows ==> r.tags.rows[k].owner == authUser
    ensures s.recipes[id].owner == authUser ==> Inv(r)
  {
    var s1 :=
      if data.tags.Some? then
        var cleared := s.(recipes := s.recipes[id := s.recipes[id].(tags := {})]);
        AttachTags(cleared, authUser, data.tags.value, id)
      else s;
    var r := s1.(recipes := s1.recipes[id := Overwrite(s1.recipes[id], data)]);
    assert s.recipes[id].owner == authUser ==> LinksOwned(r.tags.rows, r.recipes) by {
      if s.recipes[id].owner == authUser {
        forall rid, t | rid in r.recipes && t in r.recipes[rid].tags
          ensures t in r.tags.rows && r.tags.rows[t].owner == r.recipes[rid].owner
        {
          if rid != id {
            assert r.recipes[rid] == s.recipes[rid];
          }
        }
      }
    }
    r
  }

  /** The two serializers: `RecipeSerializer` (summary) and `RecipeDetailSerializer`. */
  datatype Shape = Summary | Detail

  const SummaryFields: seq<string> := ["id", "title", "time_minutes", "price", "link", "tags"]

  /** The field list each serializer renders; the detail list extends the summary list. */
  function Fields(shape: Shape): seq<string>
  {
    match shape
    case Summary => SummaryFields
    case Detail => SummaryFields + ["description"]
  }

  lemma DetailIsSummaryPlusDescription()
    ensures Fields(Detail) == Fields(Summary) + ["description"]
    ensures "description" !in Fields(Summary)
    ensures forall f :: f in Fields(Summary) ==> f in Fields(Detail)
  {
  }

  /** A nested tag in a response: `TagSerializer`'s `id` and `name`. */
  datatype TagOut = TagOut(id: Id, name: string)

  /** A rendered recipe; `description` is present only when the shape lists it. */
  datatype RecipeOut = RecipeOut(
    id: Id,
    title: string,
    timeMinutes: int,
    price: int,
    link: string,
    tags: set<TagOut>,
    description: Option<string>)

  /** Render recipe `id` in `shape`, its tags looked up in `rows`. */
  function Render(shape: Shape, rows: map<Id, Tag>, id: Id, r: Recipe): (out: RecipeOut)
    ensures out.id == id && out.title == r.title && out.timeMinutes == r.timeMinutes
    ensures out.price == r.price && out.link == r.link
    ensures forall x :: x in out.tags <==> x.id in r.tags && x.id in rows && rows[x.id].name == x.name
    ensures out.description.Some? <==> shape == Detail
    ensures out.description.Some? ==> out.description.value == r.description
  {
    var tags := set t | t in r.tags && t in rows :: TagOut(t, rows[t].name);
    RecipeOut(id, r.title, r.timeMinutes, r.price, r.link, tags,
              if shape == Detail then Some(r.description) else None)
  }

  /** A rendered recipe carries a description exactly when its shape's field list names it. */
  lemma RenderFollowsFieldList(shape: Shape, rows: map<Id, Tag>, id: Id, r: Recipe)
    ensures ("description" in Fields(shape)) <==> Render(shape, rows, id, r).description == Some(r.description)
    ensures ("description" !in Fields(shape)) <==> Render(shape, rows, id, r).description == None
  {
  }
}
