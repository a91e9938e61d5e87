/**
 * Tag resolution of the recipe serializer: each tag descriptor is looked up
 * among the requesting user's tags by name and created when missing
 * (get-or-create), and the resulting tag is added to the recipe's tag set.
 * This module states the resolution as a fold over the descriptor names; the
 * class in store.dfy performs it in place.
 */
module TagResolver {
  import opened Wrappers
  import opened Model

  /** The id of `owner`'s tag named `name`, if there is one. */
  function FindTag(rows: map<Id, Tag>, owner: UserId, name: string): (r: Option<Id>)
    requires UniqueNames(rows)
    ensures r.Some? ==> r.value in rows && rows[r.value] == Tag(name, owner)
    ensures r.None? <==> name !in OwnedNames(rows, owner)
  {
    if exists id :: id in rows && rows[id] == Tag(name, owner) then
      var id :| id in rows && rows[id] == Tag(name, owner); Some(id)
    else
      None
  }

  /**
   * One get-or-create: reuse `owner`'s tag named `name`, or insert a new row
   * under the next id. Returns the table afterwards and the tag's id.
   */
  function GetOrCreate(t: TagTable, owner: UserId, name: string): (r: (TagTable, Id))
    requires ValidTable(t)
    ensures ValidTable(r.0)
    ensures r.1 in r.0.rows && r.0.rows[r.1] == Tag(name, owner)
    ensures Extends(t.rows, r.0.rows)
    ensures name in OwnedNames(t.rows, owner) ==> r.0 == t
    ensures name !in OwnedNames(t.rows, owner) ==>
      r.1 !in t.rows && r.0.rows.Keys == t.rows.Keys + {r.1} && r.0.next == t.next + 1
  {
    match FindTag(t.rows, owner, name)
    case Some(id) => (t, id)
    case None =>
      (TagTable(t.rows[t.next := Tag(name, owner)], t.next + 1), t.next)
  }

  /**
   * Resolution of a whole descriptor list, in list order: the table
   * afterwards and the set of tag ids added to the recipe.
   */
  function Resolve(t: TagTable, owner: UserId, names: seq<string>): (r: (TagTable, set<Id>))
    requires ValidTable(t)
    ensures ValidTable(r.0)
    decreases |names|
  {
    if names == [] then (t, {})
    else
      var (t1, ids) := Resolve(t, owner, names[..|names| - 1]);
      var (t2, id) := GetOrCreate(t1, owner, names[|names| - 1]);
      (t2, ids + {id})
  }

  lemma OwnedNamesGrow(before: map<Id, Tag>, after: map<Id, Tag>, owner: UserId)
    requires Extends(before, after)
    ensures OwnedNames(before, owner) <= OwnedNames(after, owner)
  {
  }

  /**
   * The linked set is exactly the caller's tags named in the list, and
   * after resolution every listed name has a tag owned by the caller.
   */
  lemma {:induction false} ResolveLinksExactly(t: TagTable, owner: UserId, names: seq<string>)
    requires ValidTable(t)
    ensures Resolve(t, owner, names).1 == TagIdsNamed(Resolve(t, owner, names).0.rows, owner, names)
    ensures forall n :: n in names ==> n in OwnedNames(Resolve(t, owner, names).0.rows, owner)
    decreases |names|
  {
    if names != [] {
      var init, last := names[..|names| - 1], names[|names| - 1];
      assert names == init + [last];
      ResolveLinksExactly(t, owner, init);
      var (t1, ids) := Resolve(t, owner, init);
      var (t2, id) := GetOrCreate(t1, owner, last);
      OwnedNamesGrow(t1.rows, t2.rows, owner);
      assert Resolve(t, owner, names) == (t2, ids + {id});
      forall x | x in TagIdsNamed(t2.rows, owner, names)
        ensures x in ids + {id}
      {
        if t2.rows[x].name == last {
          assert t2.rows[x] == t2.rows[id];
        } else {
          assert x in t1.rows;
          assert x in TagIdsNamed(t1.rows, owner, init);
        }
      }
      forall n | n in names ensures n in OwnedNames(t2.rows, owner) {
        if n != last {
          assert n in init;
        } else {
          assert t2.rows[id].owner == owner && t2.rows[id].name == n;
        }
      }
    }
  }

  /**
   * Resolution only adds rows: existing rows of every user stay as they
   * were, and each added row belongs to the caller and carries a listed
   * name the caller had no tag for.
   */
  lemma {:induction false} ResolveOnlyAddsCallerTags(t: TagTable, owner: UserId, names: seq<string>)
    requires ValidTable(t)
    ensures Extends(t.rows, Resolve(t, owner, names).0.rows)
    ensures forall id :: id in Resolve(t, owner, names).0.rows && id !in t.rows ==>
      && Resolve(t, owner, names).0.rows[id].owner == owner
      && Resolve(t, owner, names).0.rows[id].name in names
      && Resolve(t, owner, names).0.rows[id].name !in OwnedNames(t.rows, owner)
    decreases |names|
  {
    if names != [] {
      var init, last := names[..|names| - 1], names[|names| - 1];
      assert names == init + [last];
      ResolveOnlyAddsCallerTags(t, owner, init);
      ResolveLinksExactly(t, owner, init);
      var (t1, ids) := Resolve(t, owner, init);
      var (t2, id) := GetOrCreate(t1, owner, last);
      OwnedNamesGrow(t.rows, t1.rows, owner);
      assert Resolve(t, owner, names).0 == t2;
    }
  }

  /** The names in `names` that `owner` has no tag for yet. */
  function NewNames(rows: map<Id, Tag>, owner: UserId, names: seq<string>): set<string>
  {
    set n | n in names && n !in OwnedNames(rows, owner)
  }

  /** How the new names grow when one more name is appended to the list. */
  lemma NewNamesStep(rows: map<Id, Tag>, rows1: map<Id, Tag>, owner: UserId, init: seq<string>, last: string)
    requires Extends(rows, rows1)
    requires forall id :: id in rows1 && id !in rows ==> rows1[id].owner == owner && rows1[id].name in init
    requires forall n :: n in init ==> n in OwnedNames(rows1, owner)
    ensures last in OwnedNames(rows1, owner) ==>
      NewNames(rows, owner, init + [last]) == NewNames(rows, owner, init)
    ensures last !in OwnedNames(rows1, owner) ==>
      && NewNames(rows, owner, init + [last]) == NewNames(rows, owner, init) + {last}
      && last !in NewNames(rows, owner, init)
  {
  }

  /**
   * Exactly one row is created per distinct listed name the caller had no
   * tag for (a duplicate name creates nothing more), and the id counter
   * advances once per created row.
   */
  lemma {:induction false} ResolveCreatesOnePerNewName(t: TagTable, owner: UserId, names: seq<string>)
    requires ValidTable(t)
    ensures |Resolve(t, owner, names).0.rows| == |t.rows| + |NewNames(t.rows, owner, names)|
    ensures Resolve(t, owner, names).0.next == t.next + |NewNames(t.rows, owner, names)|
    decreases |names|
  {
    if names == [] {
      assert NewNames(t.rows, owner, names) == {};
    } else {
      var init, last := names[..|names| - 1], names[|names| - 1];
      assert names == init + [last];
      ResolveCreatesOnePerNewName(t, owner, init);
      ResolveLinksExactly(t, owner, init);
      ResolveOnlyAddsCallerTags(t, owner, init);
      var (t1, ids) := Resolve(t, owner, init);
      var (t2, id) := GetOrCreate(t1, owner, last);
      assert Resolve(t, owner, names).0 == t2;
      NewNamesStep(t.rows, t1.rows, owner, init, last);
      if last !in OwnedNames(t1.rows, owner) {
        assert |t2.rows.Keys| == |t1.rows.Keys| + 1;
      }
    }
  }

  /**
   * When the caller already owns a tag for every listed name, resolution
   * reuses them all: the table is unchanged and the linked set is those tags.
   */
  lemma {:induction false} ResolveReusesOwnedTags(t: TagTable, owner: UserId, names: seq<string>)
    requires ValidTable(t)
    requires forall n :: n in names ==> n in OwnedNames(t.rows, owner)
    ensures Resolve(t, owner, names) == (t, TagIdsNamed(t.rows, owner, names))
    decreases |names|
  {
    if names == [] {
      assert TagIdsNamed(t.rows, owner, names) == {};
    } else {
      var init, last := names[..|names| - 1], names[|names| - 1];
      assert names == init + [last];
      ResolveReusesOwnedTags(t, owner, init);
      var (t2, id) := GetOrCreate(t, owner, last);
      assert t2 == t;
      assert Resolve(t, owner, names) == (t, TagIdsNamed(t.rows, owner, init) + {id});
      forall x | x in TagIdsNamed(t.rows, owner, names)
        ensures x in TagIdsNamed(t.rows, owner, init) + {id}
      {
        if t.rows[x].name == last {
          assert t.rows[x] == t.rows[id];
        }
      }
      assert TagIdsNamed(t.rows, owner, init) + {id} <= TagIdsNamed(t.rows, owner, names);
      assert TagIdsNamed(t.rows, owner, init) + {id} == TagIdsNamed(t.rows, owner, names);
    }
  }

  /** An existing tag of the caller whose name is listed is linked, with no new row for that name. */
  lemma ResolveReusesExisting(t: TagTable, owner: UserId, names: seq<string>, id: Id)
    requires ValidTable(t)
    requires id in t.rows && t.rows[id].owner == owner && t.rows[id].name in names
    ensures id in Resolve(t, owner, names).1
    ensures forall x :: x in Resolve(t, owner, names).0.rows && x !in t.rows ==>
      Resolve(t, owner, names).0.rows[x].name != t.rows[id].name
  {
    ResolveLinksExactly(t, owner, names);
    ResolveOnlyAddsCallerTags(t, owner, names);
  }

  /** Resolving a second time with the resulting table changes nothing. */
  lemma ResolveIdempotent(t: TagTable, owner: UserId, names: seq<string>)
    requires ValidTable(t)
    ensures Resolve(Resolve(t, owner, names).0, owner, names) == Resolve(t, owner, names)
  {
    ResolveLinksExactly(t, owner, names);
    ResolveReusesOwnedTags(Resolve(t, owner, names).0, owner, names);
  }

  /** A name repeated in the list resolves to the tag already linked: nothing changes. */
  lemma ResolveDuplicateName(t: TagTable, owner: UserId, names: seq<string>, n: string)
    requires ValidTable(t)
    requires n in names
    ensures Resolve(t, owner, names + [n]) == Resolve(t, owner, names)
  {
    var all := names + [n];
    assert all[..|all| - 1] == names && all[|all| - 1] == n;
    ResolveLinksExactly(t, owner, names);
    var (t1, ids) := Resolve(t, owner, names);
    var (t2, id) := GetOrCreate(t1, owner, n);
    assert t2 == t1;
    assert id in ids;
    assert Resolve(t, owner, all) == (t2, ids + {id});
    assert ids + {id} == ids;
    assert Resolve(t, owner, all) == (t1, ids);
    assert Resolve(t, owner, names) == (t1, ids);
  }
}
