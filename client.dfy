/**
 * Machina's client-side mirror of engine objects: each object has a fixed
 * id and a property map from key to atom; the client model holds the
 * objects ordered by id, at most one per id. Signals are modelled as logs
 * of what was emitted.
 */
module MachinaClient {
  import opened Wrappers
  import opened MachinaUpdates

  /** The value a property has in `props`: the stored atom, or the null atom when the key was never set. */
  function Lookup(props: map<nat, Atom>, key: nat): (r: Atom)
    ensures r != Nil ==> key in props && props[key] == r
  {
    if key in props then props[key] else Nil
  }

  /** After setting a key, looking it up gives the value set; every other key is unaffected. */
  lemma LookupAfterSet(props: map<nat, Atom>, key: nat, value: Atom, other: nat)
    ensures Lookup(props[key := value], key) == value
    ensures other != key ==> Lookup(props[key := value], other) == Lookup(props, other)
  {
  }

  class ClientObject {
    const id: nat
    var properties: map<nat, Atom>
    /** Whether a view is attached. */
    var hasView: bool
    /** What signal_property has emitted, in order. */
    var propertySignals: seq<(nat, Atom)>

    constructor (id: nat)
      ensures this.id == id && properties == map[] && !hasView && propertySignals == []
    {
      this.id := id;
      properties := map[];
      hasView := false;
      propertySignals := [];
    }

    /** The copy constructor: a new id, the same properties, no view. */
    constructor Copy(copy: ClientObject, id: nat)
      ensures this.id == id && properties == copy.properties && !hasView && propertySignals == []
      ensures forall key :: Get(key) == copy.Get(key)
    {
      this.id := id;
      properties := copy.properties;
      hasView := false;
      propertySignals := [];
    }

    method Set(key: nat, value: Atom)
      modifies this
      ensures properties == old(properties)[key := value]
      ensures propertySignals == old(propertySignals) + [(key, value)]
      ensures hasView == old(hasView)
      ensures Get(key) == value
      ensures forall k :: k != key ==> Get(k) == old(Get(k))
    {
      properties := properties[key := value];
      propertySignals := propertySignals + [(key, value)];
      LookupAfterSet(old(properties), key, value, key);
    }

    function Get(key: nat): (r: Atom)
      reads this
    {
      Lookup(properties, key)
    }

    method SetView(view: bool)
      modifies this
      ensures hasView == view && properties == old(properties) && propertySignals == old(propertySignals)
    {
      hasView := view;
    }
  }

  class ClientModel {
    /** The object set, keyed by the ids its comparator orders by. */
    var objects: map<nat, ClientObject>
    var newSignals: seq<ClientObject>
    var eraseSignals: seq<ClientObject>

    /** Every object is stored under its own id. */
    ghost predicate Valid()
      reads this, objects.Values
    {
      forall k :: k in objects ==> objects[k].id == k
    }

    constructor ()
      ensures Valid() && objects == map[] && newSignals == [] && eraseSignals == []
    {
      objects := map[];
      newSignals := [];
      eraseSignals := [];
    }

    /** find: the object with that id, or nothing. */
    function Find(id: nat): (r: Option<ClientObject>)
      requires Valid()
      reads this, objects.Values
      ensures r.Some? <==> id in objects
      ensures r.Some? ==> r.value.id == id && r.value in objects.Values
    {
      if id in objects then Some(objects[id]) else None
    }

    /**
     * new_object inserts into the set; an object whose id is already there
     * is not inserted. The signal is emitted either way.
     */
    method NewObject(obj: ClientObject)
      requires Valid()
      modifies this
      ensures Valid()
      ensures obj.id in old(objects) ==> objects == old(objects)
      ensures obj.id !in old(objects) ==> objects == old(objects)[obj.id := obj]
      ensures newSignals == old(newSignals) + [obj] && eraseSignals == old(eraseSignals)
    {
      if obj.id !in objects {
        objects := objects[obj.id := obj];
      }
      newSignals := newSignals + [obj];
    }

    /** erase_object: a present object is signalled, loses its view and leaves the set; an absent id changes nothing. */
    method EraseObject(id: nat)
      requires Valid()
      modifies this, if id in objects then {objects[id]} else {}
      ensures Valid()
      ensures id !in old(objects) ==> objects == old(objects) && eraseSignals == old(eraseSignals)
      ensures id in old(objects) ==> objects == map k | k in old(objects) && k != id :: old(objects)[k]
      ensures id in old(objects) ==> eraseSignals == old(eraseSignals) + [old(objects)[id]] && !old(objects)[id].hasView
      ensures id in old(objects) ==> old(objects)[id].properties == old(objects[id].properties)
      ensures newSignals == old(newSignals)
    {
      var found := Find(id);
      if found.None? {
        return;
      }
      var obj := found.value;
      eraseSignals := eraseSignals + [obj];
      obj.SetView(false);
      objects := map k | k in objects && k != id :: objects[k];
    }

    /** property: sets the key on the object with that id, if there is one; otherwise nothing changes. */
    method Property(id: nat, key: nat, value: Atom)
      requires Valid()
      modifies if id in objects then {objects[id]} else {}
      ensures Valid() && objects == old(objects)
      ensures id in objects ==> objects[id].properties == old(objects[id].properties)[key := value]
      ensures id in objects ==> objects[id].Get(key) == value
    {
      var found := Find(id);
      if found.Some? {
        found.value.Set(key, value);
      }
    }
  }
}
