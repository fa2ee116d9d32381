/** The overrides of a request written into its copied body one after the other, in place
    (the loop of `build_prepared_request`): the store ends up holding the body the request is to carry. */
module InPlaceBodies {
  import opened JsonValues
  import opened Bodies
  import opened BodyStores
  import opened MutationPoints
  import opened Requests

  /** An override's value is stored apart from the body. */
  ghost predicate Aside(store: Store, root: Address, value: Json, address: Address, new_: Json) {
    && Holds(store, root, value) && Holds(store, address, new_) && Unshared(store, address, new_)
    && Footprint(store, root, value) !! Footprint(store, address, new_)
  }

  ghost predicate Separate(store: Store, address: Address, new_: Json, other: Address, otherNew: Json) {
    && Holds(store, address, new_) && Holds(store, other, otherNew)
    && Footprint(store, address, new_) !! Footprint(store, other, otherNew)
  }

  /** The body is unshared, and the values still to be written lie apart from it and each other. */
  ghost predicate Ready(store: Store, root: Address, value: Json, overrides: map<string, Json>,
        addresses: map<string, Address>, keys: set<string>)
  {
    && Holds(store, root, value) && Unshared(store, root, value)
    && keys <= overrides.Keys && keys <= addresses.Keys
    && (forall key | key in keys :: Aside(store, root, value, addresses[key], overrides[key]))
    && (forall key, other | key in keys && other in keys && key != other ::
          Separate(store, addresses[key], overrides[key], addresses[other], overrides[other]))
  }

  /** What one write does to the store. */
  ghost predicate Wrote(store: Store, root: Address, value: Json, other: Store, newRoot: Address, written: Json,
        address: Address, new_: Json)
  {
    && Aside(store, root, value, address, new_)
    && Holds(other, newRoot, written) && Unshared(other, newRoot, written) && other.Keys == store.Keys
    && Footprint(other, newRoot, written) <= Footprint(store, root, value) + Footprint(store, address, new_)
    && forall a | a in store && a !in Footprint(store, root, value) :: other[a] == store[a]
  }

  lemma {:induction false} AsideKept(store: Store, root: Address, value: Json, other: Store, newRoot: Address,
        written: Json, address: Address, new_: Json, kept: Address, keptNew: Json)
    requires Wrote(store, root, value, other, newRoot, written, address, new_)
    requires Aside(store, root, value, kept, keptNew) && Separate(store, address, new_, kept, keptNew)
    ensures Aside(other, newRoot, written, kept, keptNew)
    ensures Footprint(other, kept, keptNew) == Footprint(store, kept, keptNew)
  {
    Frame(store, other, kept, keptNew);
  }

  lemma {:induction false} ReadyKept(store: Store, root: Address, value: Json, overrides: map<string, Json>,
        addresses: map<string, Address>, keys: set<string>, key: string, other: Store, newRoot: Address, written: Json)
    requires Ready(store, root, value, overrides, addresses, keys) && key in keys
    requires Wrote(store, root, value, other, newRoot, written, addresses[key], overrides[key])
    ensures Ready(other, newRoot, written, overrides, addresses, keys - {key})
  {
    forall k | k in keys - {key}
      ensures Aside(other, newRoot, written, addresses[k], overrides[k])
      ensures Holds(store, addresses[k], overrides[k])
      ensures Footprint(other, addresses[k], overrides[k]) == Footprint(store, addresses[k], overrides[k])
    {
      AsideKept(store, root, value, other, newRoot, written, addresses[key], overrides[key], addresses[k],
          overrides[k]);
    }
    forall k, l | k in keys - {key} && l in keys - {key} && k != l
      ensures Separate(other, addresses[k], overrides[k], addresses[l], overrides[l])
    {
      assert Separate(store, addresses[k], overrides[k], addresses[l], overrides[l]);
    }
  }

  /** Nothing has changed outside the body and the override values. */
  ghost predicate Untouched(store: Store, other: Store, touched: set<Address>) {
    other.Keys == store.Keys && forall a | a in store && a !in touched :: other[a] == store[a]
  }

  lemma {:induction false} UntouchedKept(first: Store, store: Store, root: Address, value: Json, other: Store,
        newRoot: Address, written: Json, address: Address, new_: Json, touched: set<Address>)
    requires Untouched(first, store, touched) && Wrote(store, root, value, other, newRoot, written, address, new_)
    requires Footprint(store, root, value) <= touched && Footprint(store, address, new_) <= touched
    ensures Untouched(first, other, touched) && Footprint(other, newRoot, written) <= touched
  {
  }

  /** One override: the value is written at its point if that is a point of the body. */
  method WriteOne(store: Store, root: Address, path: Path, address: Address, ghost value: Json, ghost new_: Json)
    returns (other: Store, newRoot: Address)
    requires Aside(store, root, value, address, new_) && Unshared(store, root, value) && Has(value, path)
    ensures Wrote(store, root, value, other, newRoot, Put(value, path, new_), address, new_)
  {
    other, newRoot := ReplaceBodyValue(store, root, path, address, value, new_);
  }

  /** The loop over the overrides, whatever their order. */
  method ApplyInPlace(store: Store, body: Address, endpoint: Endpoint, points: seq<MutationPoint>,
        overrides: map<string, Json>, addresses: map<string, Address>, ghost touched: set<Address>)
    returns (other: Store, root: Address)
    requires IsDict(points) && PointsFit(endpoint, points) && HasBody(endpoint)
    requires addresses.Keys == overrides.Keys
    requires Ready(store, body, endpoint.body.body, overrides, addresses, overrides.Keys)
    requires Footprint(store, body, endpoint.body.body) <= touched
    requires forall key | key in overrides ::
      Holds(store, addresses[key], overrides[key]) && Footprint(store, addresses[key], overrides[key]) <= touched
    ensures Holds(other, root, EditedBody(endpoint, points, overrides))
    ensures Unshared(other, root, EditedBody(endpoint, points, overrides))
    ensures Untouched(store, other, touched)
  {
    other, root := store, body;
    var remaining := overrides.Keys;
    ghost var value := endpoint.body.body;
    EditsBegin(endpoint, points, overrides);
    while remaining != {}
      invariant remaining <= overrides.Keys
      invariant value == Edited(endpoint.body.body, BodyEdits(points, overrides, overrides.Keys - remaining), [])
      invariant Ready(other, root, value, overrides, addresses, remaining)
      invariant Untouched(store, other, touched) && Footprint(other, root, value) <= touched
      invariant forall key | key in remaining ::
        Holds(other, addresses[key], overrides[key]) && Footprint(other, addresses[key], overrides[key]) <= touched
      decreases remaining
    {
      var key :| key in remaining;
      PointAtFinds(points, key);
      var found := PointAt(points, key);
      if found.Some? && found.value.location.InBody? {
        NextEdit(endpoint, points, overrides, remaining, found.value);
        ghost var (before, from, old_) := (other, root, value);
        other, root := WriteOne(other, root, found.value.bodyPath, addresses[key], value, overrides[key]);
        value := Put(value, found.value.bodyPath, overrides[key]);
        UntouchedKept(store, before, from, old_, other, root, value, addresses[key], overrides[key], touched);
        ReadyKept(before, from, old_, overrides, addresses, remaining, key, other, root, value);
        RestTouched(before, from, old_, overrides, addresses, remaining, key, other, root, value, touched);
      } else {
        NoEdit(points, overrides, remaining, key);
      }
      remaining := remaining - {key};
    }
    assert overrides.Keys - {} == overrides.Keys;
  }

  lemma {:induction false} RestTouched(store: Store, root: Address, value: Json, overrides: map<string, Json>,
        addresses: map<string, Address>, keys: set<string>, key: string, other: Store, newRoot: Address, written: Json,
        touched: set<Address>)
    requires Ready(store, root, value, overrides, addresses, keys) && key in keys
    requires Wrote(store, root, value, other, newRoot, written, addresses[key], overrides[key])
    requires forall k | k in keys :: Footprint(store, addresses[k], overrides[k]) <= touched
    ensures forall k | k in keys - {key} ::
      Holds(other, addresses[k], overrides[k]) && Footprint(other, addresses[k], overrides[k]) <= touched
  {
    forall k | k in keys - {key}
      ensures Holds(other, addresses[k], overrides[k]) && Footprint(other, addresses[k], overrides[k]) <= touched
    {
      AsideKept(store, root, value, other, newRoot, written, addresses[key], overrides[key], addresses[k],
          overrides[k]);
    }
  }

  lemma {:induction false} EditsBegin(endpoint: Endpoint, points: seq<MutationPoint>, overrides: map<string, Json>)
    requires IsDict(points) && HasBody(endpoint)
    ensures Edited(endpoint.body.body, BodyEdits(points, overrides, overrides.Keys - overrides.Keys), [])
         == endpoint.body.body
  {
    assert BodyEdits(points, overrides, overrides.Keys - overrides.Keys) == map[];
    EditedNowhere(endpoint.body.body, map[], []);
  }

  lemma {:induction false} NextEdit(endpoint: Endpoint, points: seq<MutationPoint>, overrides: map<string, Json>,
        remaining: set<string>, point: MutationPoint)
    requires IsDict(points) && PointsFit(endpoint, points) && HasBody(endpoint)
    requires point in points && point.location.InBody? && point.key in remaining && remaining <= overrides.Keys
    ensures var value := Edited(endpoint.body.body, BodyEdits(points, overrides, overrides.Keys - remaining), []);
            && Has(value, point.bodyPath)
            && Put(value, point.bodyPath, overrides[point.key])
               == Edited(endpoint.body.body,
                  BodyEdits(points, overrides, overrides.Keys - (remaining - {point.key})), [])
  {
    OneMoreEdit(endpoint, points, overrides, overrides.Keys - remaining, point);
    assert overrides.Keys - remaining + {point.key} == overrides.Keys - (remaining - {point.key});
  }

  lemma {:induction false} NoEdit(points: seq<MutationPoint>, overrides: map<string, Json>, remaining: set<string>,
        key: string)
    requires IsDict(points) && key in remaining && remaining <= overrides.Keys
    requires forall point | point in points && point.key == key :: !point.location.InBody?
    ensures BodyEdits(points, overrides, overrides.Keys - (remaining - {key}))
         == BodyEdits(points, overrides, overrides.Keys - remaining)
  {
    OneMoreKey(points, overrides, overrides.Keys - remaining, key);
    assert overrides.Keys - remaining + {key} == overrides.Keys - (remaining - {key});
  }
}
