/**
 * The store as the program mutates it: the tag table, the recipe table and
 * their id counters are fields updated in place. Each write method
 * performs the serializer's or the view's steps and is proved to leave the
 * store in the state the matching function of Serializers or Views
 * describes, so the properties proved there hold of it.
 */
module Store {
  import opened Wrappers
  import opened Model
  import opened TagResolver
  import Serializers
  import Views

  class RecipeStore {
    var tags: map<Id, Tag>
    var nextTagId: Id
    var recipes: map<Id, Recipe>
    var nextRecipeId: Id

    /** The tables as a value. */
    function State(): StoreState
      reads this
    {
      StoreState(TagTable(tags, nextTagId), recipes, nextRecipeId)
    }

    ghost predicate Valid()
      reads this
    {
      Inv(State())
    }

    constructor ()
      ensures Valid() && State() == Empty
    {
      tags, nextTagId := map[], 1;
      recipes, nextRecipeId := map[], 1;
    }

    /** One `get_or_create` on the tag table for (`owner`, `name`). */
    method GetOrCreateTag(owner: UserId, name: string) returns (id: Id)
      requires ValidTable(TagTable(tags, nextTagId))
      modifies this
      ensures (TagTable(tags, nextTagId), id) == GetOrCreate(old(TagTable(tags, nextTagId)), owner, name)
      ensures recipes == old(recipes) && nextRecipeId == old(nextRecipeId)
    {
      if exists k :: k in tags && tags[k] == Tag(name, owner) {
        id :| id in tags && tags[id] == Tag(name, owner);
      } else {
        id := nextTagId;
        tags := tags[id := Tag(name, owner)];
        nextTagId := nextTagId + 1;
      }
    }

    /**
     * `_get_or_create_tag`: for each name in turn, get or create the
     * requesting user's tag and add it to recipe `rid`'s tag set.
     */
    method AddTags(authUser: UserId, names: seq<string>, rid: Id)
      requires ValidTable(TagTable(tags, nextTagId)) && rid in recipes
      modifies this
      ensures State() == Serializers.AttachTags(old(State()), authUser, names, rid)
    {
      ghost var t0 := TagTable(tags, nextTagId);
      ghost var r0 := recipes[rid];
      assert r0.(tags := r0.tags + {}) == r0;
      assert recipes == old(recipes)[rid := r0];
      for i := 0 to |names|
        invariant TagTable(tags, nextTagId) == Resolve(t0, authUser, names[..i]).0
        invariant recipes == old(recipes)[rid := r0.(tags := r0.tags + Resolve(t0, authUser, names[..i]).1)]
        invariant nextRecipeId == old(nextRecipeId)
      {
        assert names[..i + 1][..i] == names[..i];
        ghost var linked := Resolve(t0, authUser, names[..i]).1;
        var id := GetOrCreateTag(authUser, names[i]);
        assert Resolve(t0, authUser, names[..i + 1]).1 == linked + {id};
        assert recipes[rid].tags + {id} == r0.tags + (linked + {id});
        recipes := recipes[rid := recipes[rid].(tags := recipes[rid].tags + {id})];
      }
      assert names[..|names|] == names;
    }

    /**
     * The serializer's `create`: insert the recipe under the next id with
     * `owner`, then attach the payload's tags (none when the key is absent).
     */
    method Create(authUser: UserId, owner: UserId, data: RecipeData) returns (id: Id)
      requires Valid()
      modifies this
      ensures (State(), id) == Serializers.Create(old(State()), authUser, owner, data)
    {
      var names := data.tags.GetOr([]);
      id := nextRecipeId;
      recipes := recipes[id := Serializers.NewRecipe(data, owner)];
      nextRecipeId := nextRecipeId + 1;
      AddTags(authUser, names, id);
    }

    /**
     * The serializer's `update` of recipe `id`: with a `tags` key, clear the
     * links and attach the new list; then assign each present field.
     */
    method Update(authUser: UserId, id: Id, data: RecipeData)
      requires Valid() && id in recipes
      modifies this
      ensures State() == Serializers.Update(old(State()), authUser, id, data)
    {
      if data.tags.Some? {
        recipes := recipes[id := recipes[id].(tags := {})];
        AddTags(authUser, data.tags.value, id);
      }
      var r := recipes[id];
      if data.title.Some? {
        r := r.(title := data.title.value);
      }
      if data.description.Some? {
        r := r.(description := data.description.value);
      }
      if data.timeMinutes.Some? {
        r := r.(timeMinutes := data.timeMinutes.value);
      }
      if data.price.Some? {
        r := r.(price := data.price.value);
      }
      if data.link.Some? {
        r := r.(link := data.link.value);
      }
      recipes := recipes[id := r];
    }

    /** `perform_create`: the caller is the owner; the store stays valid. */
    method PerformCreate(caller: UserId, data: RecipeData) returns (id: Id)
      requires Valid()
      modifies this
      ensures Valid()
      ensures (State(), id) == Views.PerformCreate(old(State()), caller, data)
    {
      id := Create(caller, caller, data);
    }

    /** A full or partial update through the caller's recipes; `found` is false for a not-found. */
    method UpdateRecipe(caller: UserId, id: Id, data: RecipeData) returns (found: bool)
      requires Valid()
      modifies this
      ensures Valid()
      ensures found == (id in old(recipes) && old(recipes)[id].owner == caller)
      ensures found ==> State() == Views.UpdateRecipe(old(State()), caller, id, data).value
      ensures !found ==> State() == old(State())
    {
      found := id in recipes && recipes[id].owner == caller;
      if found {
        Update(caller, id, data);
      }
    }

    /** A destroy through the caller's recipes; `found` is false for a not-found. */
    method DestroyRecipe(caller: UserId, id: Id) returns (found: bool)
      requires Valid()
      modifies this
      ensures Valid()
      ensures found == (id in old(recipes) && old(recipes)[id].owner == caller)
      ensures found ==> State() == Views.DestroyRecipe(old(State()), caller, id).value
      ensures !found ==> State() == old(State())
    {
      found := id in recipes && recipes[id].owner == caller;
      if found {
        recipes := recipes - {id};
      }
    }
  }
}
