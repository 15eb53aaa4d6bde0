/**
 * Graph entities as the record mapping builds them: a schema name, an id and
 * multi-valued string properties, plus the append-only sink they are put into.
 */
module Entities {
  import opened Wrappers

  /** An entity proxy: its schema (e.g. "Company"), its id and its property values. */
  datatype Entity = Entity(schema: string, id: string, props: map<string, seq<string>>)

  /** A fresh entity of a schema with its id set and no properties yet. */
  function MakeEntity(schema: string, id: string): (e: Entity)
    ensures e.schema == schema && e.id == id && e.props == map[]
  {
    Entity(schema, id, map[])
  }

  /** The values of property `prop`, empty when the property was never added. */
  function Values(e: Entity, prop: string): seq<string> {
    if prop in e.props then e.props[prop] else []
  }

  /** No value occurs twice. */
  predicate Distinct(vs: seq<string>) {
    forall i, j :: 0 <= i < j < |vs| ==> vs[i] != vs[j]
  }

  /**
   * `proxy.add(prop, value)`: an absent value is ignored; a present value is
   * appended to the property's values unless it is already one of them.
   */
  function Add(e: Entity, prop: string, value: Option<string>): (r: Entity)
    ensures r.schema == e.schema && r.id == e.id
    ensures value.None? ==> r == e
    ensures value.Some? ==> r.props.Keys == e.props.Keys + {prop}
  {
    match value
    case None => e
    case Some(v) =>
      var vs := Values(e, prop);
      if v in vs then e
      else e.(props := e.props[prop := vs + [v]])
  }

  /**
   * What `add` does to the values: other properties are untouched; the old
   * values of `prop` stay, in order, as a prefix; a present value ends up among
   * them; nothing else is added; and no value is ever duplicated.
   */
  lemma AddValues(e: Entity, prop: string, value: Option<string>)
    ensures forall q :: q != prop ==> Values(Add(e, prop, value), q) == Values(e, q)
    ensures Values(e, prop) <= Values(Add(e, prop, value), prop)
    ensures value.Some? ==> value.value in Values(Add(e, prop, value), prop)
    ensures forall v :: v in Values(Add(e, prop, value), prop) ==> v in Values(e, prop) || value == Some(v)
    ensures Distinct(Values(e, prop)) ==> Distinct(Values(Add(e, prop, value), prop))
  {
  }

  /** A property name paired with the value to add to it (absent values are ignored by `Add`). */
  type Field = (string, Option<string>)

  /** Successive `add` calls, one per field, in order. */
  function AddAll(e: Entity, fields: seq<Field>): Entity
    decreases |fields|
  {
    if fields == [] then e else AddAll(Add(e, fields[0].0, fields[0].1), fields[1..])
  }

  /** The property names the fields write, in order. */
  function Names(fields: seq<Field>): (r: seq<string>)
    ensures |r| == |fields| && forall k :: 0 <= k < |fields| ==> r[k] == fields[k].0
  {
    seq(|fields|, k requires 0 <= k < |fields| => fields[k].0)
  }

  /** The property names the fields write are distinct, and none of them is already set on `e`. */
  predicate FreshNames(e: Entity, fields: seq<Field>) {
    && (forall i, j :: 0 <= i < j < |fields| ==> fields[i].0 != fields[j].0)
    && (forall k :: 0 <= k < |fields| ==> fields[k].0 !in e.props)
  }

  /** Successive adds keep the schema and id, and leave every property they do not name as it was. */
  lemma {:induction false} AddAllOther(e: Entity, fields: seq<Field>, p: string)
    requires p !in Names(fields)
    ensures AddAll(e, fields).schema == e.schema && AddAll(e, fields).id == e.id
    ensures Values(AddAll(e, fields), p) == Values(e, p)
    decreases |fields|
  {
    if fields != [] {
      assert Names(fields[1..]) == Names(fields)[1..];
      AddAllOther(Add(e, fields[0].0, fields[0].1), fields[1..], p);
    }
  }

  /** With distinct, fresh names, each named property ends up holding exactly its field's value, if present. */
  lemma {:induction false} AddAllNamed(e: Entity, fields: seq<Field>, k: nat)
    requires FreshNames(e, fields) && k < |fields|
    ensures Values(AddAll(e, fields), fields[k].0) == OptList(fields[k].1)
    decreases |fields|
  {
    var e' := Add(e, fields[0].0, fields[0].1);
    var rest := fields[1..];
    if k == 0 {
      assert fields[0].0 !in Names(rest) by {
        forall j | 0 <= j < |rest|
          ensures rest[j].0 != fields[0].0
        {
          assert rest[j] == fields[j + 1];
        }
      }
      AddAllOther(e', rest, fields[0].0);
    } else {
      assert FreshNames(e', rest) by {
        forall j | 0 <= j < |rest|
          ensures rest[j].0 !in e'.props
        {
          assert rest[j] == fields[j + 1];
        }
      }
      AddAllNamed(e', rest, k - 1);
      assert rest[k - 1] == fields[k];
    }
  }

  /** The names of the fields whose value is present. */
  function PresentNames(fields: seq<Field>): set<string>
    decreases |fields|
  {
    if fields == [] then {}
    else (if fields[0].1.Some? then {fields[0].0} else {}) + PresentNames(fields[1..])
  }

  /** Successive adds create exactly the properties whose value is present. */
  lemma {:induction false} AddAllKeys(e: Entity, fields: seq<Field>)
    ensures AddAll(e, fields).props.Keys == e.props.Keys + PresentNames(fields)
    ensures PresentNames(fields) <= set k | 0 <= k < |fields| :: fields[k].0
    decreases |fields|
  {
    if fields != [] {
      var rest := fields[1..];
      AddAllKeys(Add(e, fields[0].0, fields[0].1), rest);
      forall x | x in PresentNames(rest)
        ensures x in set k | 0 <= k < |fields| :: fields[k].0
      {
        var k :| 0 <= k < |rest| && rest[k].0 == x;
        assert fields[k + 1] == rest[k];
      }
    }
  }

  /** No value, or the one value. */
  function OptList(o: Option<string>): seq<string> {
    match o
    case None => []
    case Some(v) => [v]
  }

  /** The sink entities are put into, one at a time, in order. */
  class Bulk {
    var entities: seq<Entity>

    constructor ()
      ensures entities == []
    {
      entities := [];
    }

    /** `bulk.put(entity)`: appends, leaving what was put before untouched. */
    method Put(e: Entity)
      modifies this
      ensures entities == old(entities) + [e]
    {
      entities := entities + [e];
    }
  }
}
