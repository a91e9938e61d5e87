/**
 * The store behind the recipe API: a tag table and a recipe table, each
 * keyed by an id drawn from its own counter, as two database tables with
 * auto-increment primary keys would be.
 */
module Model {
  import opened Wrappers

  type UserId = nat
  type Id = nat

  /** A tag row: its name and its owning user (the id is the table key). */
  datatype Tag = Tag(name: string, owner: UserId)

  /**
   * A recipe row. `price` is a number of cents taken as given; `tags` is
   * the many-to-many link to tag rows, a set because linking is insertion.
   */
  datatype Recipe = Recipe(
    title: string,
    description: string,
    timeMinutes: int,
    price: int,
    link: string,
    owner: UserId,
    tags: set<Id>)

  /** The tag table with the id its next insert receives. */
  datatype TagTable = TagTable(rows: map<Id, Tag>, next: Id)

  /** The whole store. */
  datatype StoreState = StoreState(tags: TagTable, recipes: map<Id, Recipe>, nextRecipe: Id)

  /**
   * The validated data of a recipe write. A field is `None` when its key is
   * absent; `tags` holds the names of the tag descriptors. There is no owner
   * field: the serializer's fields do not include the owner.
   */
  datatype RecipeData = RecipeData(
    title: Option<string>,
    description: Option<string>,
    timeMinutes: Option<int>,
    price: Option<int>,
    link: Option<string>,
    tags: Option<seq<string>>)

  /** No two rows carry the same (name, owner): each name resolves to one tag per owner. */
  predicate UniqueNames(rows: map<Id, Tag>)
  {
    forall i, j :: i in rows && j in rows && rows[i] == rows[j] ==> i == j
  }

  predicate ValidTable(t: TagTable)
  {
    UniqueNames(t.rows) && forall id :: id in t.rows ==> id < t.next
  }

  /** Every tag linked to a recipe exists and belongs to the recipe's owner. */
  predicate LinksOwned(rows: map<Id, Tag>, recipes: map<Id, Recipe>)
  {
    forall rid, t :: rid in recipes && t in recipes[rid].tags ==>
      t in rows && rows[t].owner == recipes[rid].owner
  }

  /** The store invariant. */
  predicate Inv(s: StoreState)
  {
    && ValidTable(s.tags)
    && (forall id :: id in s.recipes ==> id < s.nextRecipe)
    && LinksOwned(s.tags.rows, s.recipes)
  }

  /** The names of `owner`'s tags. */
  function OwnedNames(rows: map<Id, Tag>, owner: UserId): set<string>
  {
    set id | id in rows && rows[id].owner == owner :: rows[id].name
  }

  /** The ids of `owner`'s tags whose name occurs in `names`. */
  function TagIdsNamed(rows: map<Id, Tag>, owner: UserId, names: seq<string>): set<Id>
  {
    set id | id in rows && rows[id].owner == owner && rows[id].name in names
  }

  /** Every row of `before` is still in `after`, unchanged. */
  predicate Extends<V(==)>(before: map<Id, V>, after: map<Id, V>)
  {
    forall id :: id in before ==> id in after && after[id] == before[id]
  }

  /** An empty database; auto-increment keys start at 1. */
  const Empty := StoreState(TagTable(map[], 1), map[], 1)
}
