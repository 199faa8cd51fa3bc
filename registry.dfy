/** The list transforms the game value editor applies to its registry of
    named values: the `map` that rewrites values, the `some` and `find`
    lookups by name, and the `filter` that deletes by id. */
module Registry {
  import opened Types

  /** Some record carries `name` (`Array.prototype.some` on the name). */
  predicate HasName(vs: seq<GameValue>, name: string)
  {
    exists i :: 0 <= i < |vs| && vs[i].name == name
  }

  /** Some record carries `id`. */
  predicate HasId(vs: seq<GameValue>, id: string)
  {
    exists i :: 0 <= i < |vs| && vs[i].id == id
  }

  /** No two records share a name: the registry's intended key invariant. */
  ghost predicate NamesDistinct(vs: seq<GameValue>)
  {
    forall i, j :: 0 <= i < j < |vs| ==> vs[i].name != vs[j].name
  }

  /** No two records share an id. */
  ghost predicate IdsDistinct(vs: seq<GameValue>)
  {
    forall i, j :: 0 <= i < j < |vs| ==> vs[i].id != vs[j].id
  }

  /** Index `i` holds the first record named `name`. */
  ghost predicate FirstNamed(vs: seq<GameValue>, name: string, i: int)
  {
    0 <= i < |vs| && vs[i].name == name && forall j :: 0 <= j < i ==> vs[j].name != name
  }

  /** Every record named `name` gets `value`; ids, names, order and all other
      records stay as they were (the `map` of the apply handler). */
  function SetValue(vs: seq<GameValue>, name: string, value: string): (r: seq<GameValue>)
    ensures |r| == |vs|
    ensures forall i :: 0 <= i < |vs| ==> r[i].id == vs[i].id && r[i].name == vs[i].name
    ensures forall i :: 0 <= i < |vs| ==> r[i].value == if vs[i].name == name then value else vs[i].value
  {
    if vs == [] then []
    else [if vs[0].name == name then vs[0].(value := value) else vs[0]] + SetValue(vs[1..], name, value)
  }

  /** The registry after a valid apply of (`name`, `value`): the values of
      the records named `name` are rewritten, or, when there is none, one
      record with the new `id` is appended. */
  function Upsert(vs: seq<GameValue>, id: string, name: string, value: string): (r: seq<GameValue>)
    ensures HasName(vs, name) ==> |r| == |vs|
    ensures HasName(vs, name) ==> forall i :: 0 <= i < |vs| ==>
      r[i].id == vs[i].id && r[i].name == vs[i].name &&
      r[i].value == if vs[i].name == name then value else vs[i].value
    ensures !HasName(vs, name) ==> r == vs + [GameValue(id, name, value)]
  {
    var updated := SetValue(vs, name, value);
    assert !HasName(vs, name) ==> forall i :: 0 <= i < |vs| ==> updated[i] == vs[i];
    if HasName(updated, name) then updated else updated + [GameValue(id, name, value)]
  }

  /** The first record named `name`, if any (`Array.prototype.find`). */
  function FindByName(vs: seq<GameValue>, name: string): (r: Option<GameValue>)
    ensures r.None? <==> !HasName(vs, name)
    ensures r.Some? ==> exists i :: FirstNamed(vs, name, i) && vs[i] == r.value
  {
    if vs == [] then None
    else if vs[0].name == name then
      assert FirstNamed(vs, name, 0);
      Some(vs[0])
    else
      FindByName(vs[1..], name)
  }

  /** The records whose id differs from `id`, in their original order
      (`Array.prototype.filter` of the delete button). */
  function RemoveById(vs: seq<GameValue>, id: string): (r: seq<GameValue>)
    ensures |r| <= |vs|
  {
    if vs == [] then []
    else (if vs[0].id == id then [] else [vs[0]]) + RemoveById(vs[1..], id)
  }

  /** Applying the same (name, value) twice leaves the registry as one apply
      does, whatever id the second apply is offered. */
  lemma UpsertIdempotent(vs: seq<GameValue>, id: string, id': string, name: string, value: string)
    ensures Upsert(Upsert(vs, id, name, value), id', name, value) == Upsert(vs, id, name, value)
  {
    var once := Upsert(vs, id, name, value);
    assert HasName(once, name) by {
      if HasName(vs, name) {
        var i :| 0 <= i < |vs| && vs[i].name == name;
        assert once[i].name == name;
      } else {
        assert once[|vs|].name == name;
      }
    }
    var twice := Upsert(once, id', name, value);
    forall i | 0 <= i < |once|
      ensures twice[i] == once[i]
    {
      if once[i].name == name {
        if i < |vs| && HasName(vs, name) {
          assert vs[i].name == name;
        }
      }
    }
  }

  /** After an apply, looking the name up finds a record with that name
      holding the applied value: load after apply shows what was applied. */
  lemma FindAfterUpsert(vs: seq<GameValue>, id: string, name: string, value: string)
    ensures FindByName(Upsert(vs, id, name, value), name).Some?
    ensures FindByName(Upsert(vs, id, name, value), name).value.name == name
    ensures FindByName(Upsert(vs, id, name, value), name).value.value == value
  {
    var r := Upsert(vs, id, name, value);
    if HasName(vs, name) {
      var i :| 0 <= i < |vs| && vs[i].name == name;
      assert r[i].name == name;
    } else {
      assert r[|vs|].name == name;
    }
    var found := FindByName(r, name);
    var k :| FirstNamed(r, name, k) && r[k] == found.value;
    if HasName(vs, name) {
      assert vs[k].name == name;
    } else {
      assert k == |vs|;
    }
  }

  /** Apply keeps names pairwise distinct. */
  lemma UpsertKeepsNamesDistinct(vs: seq<GameValue>, id: string, name: string, value: string)
    requires NamesDistinct(vs)
    ensures NamesDistinct(Upsert(vs, id, name, value))
  {
  }

  /** Apply with an id no record carries keeps ids pairwise distinct. */
  lemma UpsertKeepsIdsDistinct(vs: seq<GameValue>, id: string, name: string, value: string)
    requires IdsDistinct(vs) && !HasId(vs, id)
    ensures IdsDistinct(Upsert(vs, id, name, value))
  {
  }

  /** Deleting keeps exactly the records whose id differs from `id`. */
  lemma {:induction false} RemoveByIdMembers(vs: seq<GameValue>, id: string, v: GameValue)
    ensures v in RemoveById(vs, id) <==> v in vs && v.id != id
  {
    if vs != [] {
      RemoveByIdMembers(vs[1..], id, v);
      assert v in vs <==> v == vs[0] || v in vs[1..];
    }
  }

  /** Deleting distributes over concatenation, so it keeps the survivors in order. */
  lemma {:induction false} RemoveByIdConcat(a: seq<GameValue>, b: seq<GameValue>, id: string)
    ensures RemoveById(a + b, id) == RemoveById(a, id) + RemoveById(b, id)
  {
    if a == [] {
      assert a + b == b;
    } else {
      assert (a + b)[1..] == a[1..] + b;
      RemoveByIdConcat(a[1..], b, id);
    }
  }

  /** Deleting an id no record carries changes nothing. */
  lemma {:induction false} RemoveByIdAbsent(vs: seq<GameValue>, id: string)
    requires !HasId(vs, id)
    ensures RemoveById(vs, id) == vs
  {
    if vs != [] {
      forall i | 0 <= i < |vs[1..]|
        ensures vs[1..][i].id != id
      {
        assert vs[1..][i] == vs[i + 1];
      }
      RemoveByIdAbsent(vs[1..], id);
    }
  }

  /** With distinct ids, deleting the id of record `k` removes exactly that
      record: the registry shrinks by one and the rest keep their order. */
  lemma {:induction false} RemoveByIdAt(vs: seq<GameValue>, k: int)
    requires IdsDistinct(vs) && 0 <= k < |vs|
    ensures RemoveById(vs, vs[k].id) == vs[..k] + vs[k + 1..]
    ensures |RemoveById(vs, vs[k].id)| == |vs| - 1
  {
    var id, before, after := vs[k].id, vs[..k], vs[k + 1..];
    forall i | 0 <= i < |before|
      ensures before[i].id != id
    {
      assert before[i] == vs[i];
    }
    forall i | 0 <= i < |after|
      ensures after[i].id != id
    {
      assert after[i] == vs[k + 1 + i];
    }
    RemoveByIdAbsent(before, id);
    RemoveByIdAbsent(after, id);
    assert RemoveById([vs[k]], id) == [];
    RemoveByIdConcat([vs[k]], after, id);
    assert vs == before + ([vs[k]] + after);
    RemoveByIdConcat(before, [vs[k]] + after, id);
    assert RemoveById(vs, id) == RemoveById(before, id) + RemoveById([vs[k]] + after, id);
    assert RemoveById([vs[k]] + after, id) == after;
    assert RemoveById(vs, id) == before + after;
  }

  /** Deleting the record an apply just appended gives back the registry
      from before the apply. */
  lemma RemoveUndoesAppend(vs: seq<GameValue>, id: string, name: string, value: string)
    requires !HasName(vs, name) && !HasId(vs, id)
    ensures RemoveById(Upsert(vs, id, name, value), id) == vs
  {
    RemoveByIdConcat(vs, [GameValue(id, name, value)], id);
    RemoveByIdAbsent(vs, id);
    assert RemoveById([GameValue(id, name, value)], id) == [];
  }

  /** Deleting keeps names pairwise distinct. */
  lemma {:induction false} RemoveByIdKeepsNamesDistinct(vs: seq<GameValue>, id: string)
    requires NamesDistinct(vs)
    ensures NamesDistinct(RemoveById(vs, id))
  {
    if vs != [] {
      var rest := RemoveById(vs[1..], id);
      RemoveByIdKeepsNamesDistinct(vs[1..], id);
      if vs[0].id != id {
        forall j | 0 <= j < |rest|
          ensures rest[j].name != vs[0].name
        {
          RemoveByIdMembers(vs[1..], id, rest[j]);
        }
        assert RemoveById(vs, id) == [vs[0]] + rest;
      } else {
        assert RemoveById(vs, id) == rest;
      }
    }
  }
}
