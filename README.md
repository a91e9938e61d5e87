# Recipe API: owner-scoped recipes and tags

A Dafny model of the recipe/tag logic of a small recipe-management REST
backend. The backend stores tags (an id, a name and an owning user) and
recipes (an id, scalar fields, an owning user and a many-to-many set of
tags). The model covers three things:

- **Tag resolution.** For each tag descriptor in a recipe payload, the
  requesting user's tag with that name is found or created
  (get-or-create), then added to the recipe's tag set.
- **Recipe writes.** `create` treats a missing `tags` key as an empty list.
  `update` tells an absent `tags` key (keep the links) apart from a present
  one, even `[]` (clear the links, then resolve the new list). It then
  overwrites only the scalar fields the payload carries.
- **Owner-scoped views.** The recipe list is the caller's recipes by
  descending id. The tag list is the caller's tags by descending name. A
  create is owned by the caller. The list action renders the summary shape
  and every other action the detail shape, which adds `description`. A
  single-recipe action looks its id up among the caller's recipes only.

Files and modules:

- `wrappers.dfy` (`Wrappers`): `Option`, for payload keys that may be absent.
- `ordering.dfy` (`Ordering`): lexicographic order on names, and a
  descending sort of a set under any strict total order.
- `model.dfy` (`Model`): the rows, the tables and the payload. It also holds
  the store invariant: tag names are unique per owner, ids lie below their
  counters, and every linked tag belongs to the recipe's owner.
- `tag_resolver.dfy` (`TagResolver`): get-or-create, and resolution of a
  descriptor list as a fold, with its lemmas.
- `serializers.dfy` (`Serializers`): tag attachment, `create`, `update`,
  the field lists and the rendered shapes, as functions on the store.
- `views.dfy` (`Views`): the querysets, the choice of serializer,
  `perform_create`, and the owner-filtered retrieve, update and destroy.
- `store.dfy` (`Store`): the class `RecipeStore`. Its fields are the two
  tables and their counters. Its methods do the writes in place, as the
  serializer does (a loop over the descriptors that adds to the recipe's
  tag set, then clear, then field assignment). Each method is proved to
  reach the state the matching function describes.

The caller's user id is an explicit parameter. The ORM becomes explicit
operations on maps. Ids come from two counters starting at 1, one per
table. `price` is a whole number of cents, taken as given.

Two facts about the code are kept as written:

- The tag list is ordered by descending name (`order_by('-name')`,
  app/recipes/views.py:68), which may be unintended.
- `create`, `retrieve` and `update` use the detail serializer
  (app/recipes/views.py:35-38), so they render `description`. Only `list`
  uses the summary shape.

## Model

| member | source | states |
|---|---|---|
| Ordering.SortDesc | app/recipes/views.py:27 | the result holds exactly the elements of the set, each once, and lists them strictly greatest first |
| Ordering.NameOrderIsStrictTotal | app/recipes/views.py:68 | the name order used by `order_by('-name')` is asymmetric, transitive and total |
| TagResolver.FindTag | app/recipes/serializers.py:32-35 | finds the owner's tag with the given name, and reports none exactly when the owner has no tag of that name |
| TagResolver.GetOrCreate | app/recipes/serializers.py:32-35 | returns a tag of the caller with that name. It reuses the existing row and changes nothing when one exists; otherwise it adds exactly one row under a fresh id. The table invariant is kept |
| TagResolver.Resolve | app/recipes/serializers.py:31-36 | resolving a descriptor list in order keeps the tag table valid: names stay unique per owner and ids stay below the counter |
| TagResolver.ResolveLinksExactly | app/recipes/serializers.py:30-36 | the linked set is exactly the caller's tags whose name is listed, and every listed name ends up owned by the caller |
| TagResolver.ResolveOnlyAddsCallerTags | app/recipes/serializers.py:30-35 | no existing tag row of any user is modified or removed; every added row is the caller's and carries a listed name the caller had no tag for |
| TagResolver.ResolveCreatesOnePerNewName | app/recipes/serializers.py:31-35 | the table grows by exactly the number of distinct listed names the caller had no tag for, and the counter advances by the same amount |
| TagResolver.ResolveReusesOwnedTags | app/recipes/serializers.py:32-35 | when the caller already owns every listed name, the table is unchanged and the existing tags are linked |
| TagResolver.ResolveReusesExisting | app/recipes/serializers.py:32-36 | an existing tag of the caller with a listed name is linked, and no new row gets that name |
| TagResolver.ResolveIdempotent | app/recipes/serializers.py:31-36 | resolving the same list again on the resulting table changes nothing |
| TagResolver.ResolveDuplicateName | app/recipes/serializers.py:31-36 | appending a name that is already in the list changes neither the table nor the linked set |
| Serializers.AttachTags | app/recipes/serializers.py:28-36 | only recipe `rid`'s tag set changes: it gains exactly the caller's tags named in the list. Other recipes are unchanged, and the tag table only gains rows owned by the caller |
| Serializers.Overwrite | app/recipes/serializers.py:60-61 | assigning payload attributes never changes the owner or the tag set |
| Serializers.OverwriteOnlyPresentFields | app/recipes/serializers.py:60-61 | each scalar field present in the payload takes its value; each absent one keeps the old value |
| Serializers.OverwriteIdempotent | app/recipes/serializers.py:60-61 | applying the same payload twice equals applying it once |
| Serializers.OverwriteEmptyIsIdentity | app/recipes/serializers.py:60-62 | a payload with no scalar key leaves the recipe as it was |
| Serializers.NewRecipe | app/recipes/serializers.py:45 | the inserted row has the given owner and no tags |
| Serializers.Create | app/recipes/serializers.py:44-49 | the recipe gets a fresh id and leaves every other recipe unchanged. It holds the payload's fields, the given owner, and exactly the resolved tags (none for a missing `tags` key). The tag table only gains the caller's rows, and the store invariant holds afterwards |
| Serializers.Update | app/recipes/serializers.py:52-63 | without `tags`, the tag table and the recipe's links are unchanged. With `tags`, even empty, the links are exactly the resolved set of the new list. The present scalar fields are overwritten, the owner is kept, other recipes are unchanged, and the invariant holds |
| Serializers.DetailIsSummaryPlusDescription | app/recipes/serializers.py:67-71 | the detail field list is the summary list plus `description`, which the summary list lacks |
| Serializers.Render | app/recipes/serializers.py:21-26 | the rendered recipe carries the row's id, scalar fields and linked tags as (id, name) pairs, and a description only in the detail shape |
| Serializers.RenderFollowsFieldList | app/recipes/serializers.py:67-71 | a rendered recipe has a description exactly when its shape's field list names `description` |
| Views.SerializerFor | app/recipes/views.py:29-38 | the summary serializer is chosen exactly for the list action |
| Views.OnlyListOmitsDescription | app/recipes/views.py:35-38 | every action except list renders `description` |
| Views.SortedRecipeIds | app/recipes/views.py:27 | exactly the caller's recipe ids, strictly descending |
| Views.SortedTagNames | app/recipes/views.py:68 | exactly the names of the caller's tags, strictly descending |
| Views.RecipeList | app/recipes/views.py:21-27 | the list holds exactly the caller's recipes, no other user's, strictly by descending id, each in the summary shape |
| Views.TagList | app/recipes/views.py:61-68 | the list holds exactly the caller's tags, each with its own id and name, strictly by descending name |
| Views.Lookup | app/recipes/views.py:21-27 | a single-recipe lookup finds the recipe exactly when it exists and belongs to the caller |
| Views.RetrieveRecipe | app/recipes/views.py:16-27 | retrieve returns the caller's recipe in the detail shape, and not-found for any id the caller does not own |
| Views.OtherUsersRecipeNotFound | app/recipes/views.py:21-27 | another user's recipe id gives the same not-found as an id that does not exist |
| Views.PerformCreate | app/recipes/views.py:40-46 | the new recipe is owned by the caller, has a fresh id, and links exactly the resolved tags. Only the caller's rows change, and the invariant holds |
| Views.CreateWithoutTagsIsEmptyList | app/recipes/serializers.py:44 | a create without a `tags` key equals a create with `tags: []` and links nothing |
| Views.UpdateRecipe | app/recipes/views.py:21-27 | an update finds the recipe exactly when the caller owns it. Then only that recipe changes among the recipes, only the caller's rows change, and the invariant holds |
| Views.DestroyRecipe | app/recipes/views.py:21-27 | a destroy finds the recipe exactly when the caller owns it. Then it removes that recipe, leaves every other recipe (the caller's included) unchanged, keeps the tag table, and the invariant holds |
| Views.RepeatedNameMakesOneTag | app/recipes/serializers.py:31-36 | two descriptors named "spicy" on a first create give one tag row, linked once |
| Views.SameNameDifferentOwners | app/recipes/serializers.py:32-35 | two users who each use the name "vegan" get two distinct tag rows |
| Views.UpdateWithEmptyTagsClearsLinks | app/recipes/serializers.py:56-59 | an update with `tags: []` drops every link and creates no tag |
| Store.RecipeStore.GetOrCreateTag | app/recipes/serializers.py:32-35 | the in-place get-or-create reaches the table and id that GetOrCreate describes, and leaves the recipe table alone |
| Store.RecipeStore.AddTags | app/recipes/serializers.py:28-36 | the loop over the descriptors, adding each tag to the recipe in place, reaches the state AttachTags describes |
| Store.RecipeStore.Create | app/recipes/serializers.py:37-49 | the in-place create reaches the state and id that Serializers.Create describes |
| Store.RecipeStore.Update | app/recipes/serializers.py:52-63 | the in-place clear, attach and field assignment reach the state that Serializers.Update describes |
| Store.RecipeStore.PerformCreate | app/recipes/views.py:40-46 | creating with the caller as owner keeps the store valid and reaches the state Views.PerformCreate describes |
| Store.RecipeStore.UpdateRecipe | app/recipes/views.py:21-27 | the update happens exactly when the caller owns the recipe. Otherwise the store is unchanged, and the store stays valid |
| Store.RecipeStore.DestroyRecipe | app/recipes/views.py:21-27 | the delete happens exactly when the caller owns the recipe. Otherwise the store is unchanged, and the store stays valid |

## Left out

- The ORM, the view-set dispatch, routers and `serializer.save` are library code. They are replaced by the store operations above.
- Token authentication and `IsAuthenticated` (app/recipes/views.py:18-19) are not modelled. The caller is a parameter.
- Validation is not modelled: types, required fields, ranges and the two-decimal quantization of `price`. `price` is whole cents, with no rounding claims.
- Model defaults are not part of this model. A scalar field absent on create starts as the empty string or 0.
- The owner never appears in the payload, because the serializer's field list (app/recipes/serializers.py:26) has no owner field. `save(user=...)` supplies it as the `owner` argument of `Serializers.Create`.
- `TagSerializer.create` (app/recipes/serializers.py:16-19) is not modelled. No endpoint creates tags directly; tags arise only from resolution.
- The tag view set's update and destroy actions (app/recipes/views.py:48-51) are framework mixins and are not modelled. A rename could give a user two tags with one name; `get_or_create` would then raise. The model keeps names unique per owner as an invariant, so that failure is not modelled.
- Name order is lexicographic by character code, and name matching in get-or-create (`FindTag`) is exact string equality. Database collation, which can affect both (a case-insensitive collation, for one), is not modelled.
- The nested tags of a rendered recipe are a set. The database's order for them is not modelled.
- HTTP status codes are not modelled. `None` from a lookup stands for not-found (404).
- Concurrent get-or-create races and transaction atomicity are out of scope for a sequential model.
- app/core/management/commands/generate_fake_data.py (random demo data) and app/user/views.py (user sign-up) are not part of this model.
