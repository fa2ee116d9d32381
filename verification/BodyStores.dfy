/** The body as mutable containers: writing in place through a walk from the root
    (`_replace_body_value` on the deep copy made by `build_prepared_request`). */
module BodyStores {
  import opened JsonValues
  import opened Bodies

  type Address = nat

  /** A container holds references to its members, a leaf holds a scalar. */
  datatype Cell = Leaf(value: Json) | ObjCell(members: map<string, Address>) | ArrCell(entries: seq<Address>)
  type Store = map<Address, Cell>

  predicate CellHas(cell: Cell, step: Step) {
    match step
    case Key(key) => cell.ObjCell? && key in cell.members
    case Index(index) => cell.ArrCell? && index < |cell.entries|
  }

  function Next(cell: Cell, step: Step): Address
    requires CellHas(cell, step)
  {
    match step
    case Key(key) => cell.members[key]
    case Index(index) => cell.entries[index]
  }

  function SetNext(cell: Cell, step: Step, address: Address): Cell
    requires CellHas(cell, step)
  {
    match step
    case Key(key) => ObjCell(cell.members[key := address])
    case Index(index) => ArrCell(cell.entries[index := address])
  }

  /** The cell is built like the value's outermost layer. */
  predicate Layer(cell: Cell, value: Json) {
    match value
    case Obj(fields) => cell.ObjCell? && cell.members.Keys == fields.Keys
    case Arr(items) => cell.ArrCell? && |cell.entries| == |items|
    case _ => cell == Leaf(value)
  }

  /** The containers reachable from `address` spell out `value`. */
  ghost predicate Holds(store: Store, address: Address, value: Json)
    decreases value
  {
    && address in store && Layer(store[address], value)
    && forall step | HasStep(value, step) :: Holds(store, Next(store[address], step), Child(value, step))
  }

  function Steps(value: Json): (steps: set<Step>)
    ensures forall step :: step in steps <==> HasStep(value, step)
  {
    match value
    case Obj(fields) => set key | key in fields :: Key(key)
    case Arr(items) => set i: nat | i < |items| :: Index(i)
    case _ => {}
  }

  /** The addresses the value occupies. */
  ghost function Footprint(store: Store, address: Address, value: Json): (r: set<Address>)
    requires Holds(store, address, value)
    ensures address in r && r <= store.Keys
    decreases value
  {
    {address} + set step, a | step in Steps(value)
        && a in Footprint(store, Next(store[address], step), Child(value, step)) :: a
  }

  /** The footprint of one child. */
  ghost function Part(store: Store, address: Address, value: Json, step: Step): set<Address>
    requires Holds(store, address, value) && HasStep(value, step)
  {
    Footprint(store, Next(store[address], step), Child(value, step))
  }

  lemma {:induction false} PartInside(store: Store, address: Address, value: Json, step: Step)
    requires Holds(store, address, value) && HasStep(value, step)
    ensures Part(store, address, value, step) <= Footprint(store, address, value)
  {
  }

  lemma {:induction false} FootprintParts(store: Store, address: Address, value: Json, a: Address)
    requires Holds(store, address, value) && a in Footprint(store, address, value) && a != address
    ensures exists step :: HasStep(value, step) && a in Part(store, address, value, step)
  {
    var step :| step in Steps(value) && a in Footprint(store, Next(store[address], step), Child(value, step));
    assert a in Part(store, address, value, step);
  }

  /** No container is shared between two places of the value. */
  ghost predicate Unshared(store: Store, address: Address, value: Json)
    requires Holds(store, address, value)
    decreases value
  {
    && (forall step | HasStep(value, step) ::
          address !in Part(store, address, value, step)
          && Unshared(store, Next(store[address], step), Child(value, step)))
    && (forall step, other | HasStep(value, step) && HasStep(value, other) && step != other ::
          Part(store, address, value, step) !! Part(store, address, value, other))
  }

  /** Writes outside a value's footprint do not touch it. */
  lemma {:induction false} Frame(store: Store, other: Store, address: Address, value: Json)
    requires Holds(store, address, value)
    requires forall a | a in Footprint(store, address, value) :: a in other && other[a] == store[a]
    ensures Holds(other, address, value)
    ensures Footprint(other, address, value) == Footprint(store, address, value)
    ensures Unshared(store, address, value) ==> Unshared(other, address, value)
    decreases value
  {
    forall step | HasStep(value, step)
      ensures Holds(other, Next(store[address], step), Child(value, step))
      ensures Footprint(other, Next(store[address], step), Child(value, step)) == Part(store, address, value, step)
      ensures Unshared(store, Next(store[address], step), Child(value, step))
              ==> Unshared(other, Next(store[address], step), Child(value, step))
    {
      PartInside(store, address, value, step);
      Frame(store, other, Next(store[address], step), Child(value, step));
    }
    assert Holds(other, address, value);
    SameFootprint(store, other, address, value);
  }

  lemma {:induction false} SameFootprint(store: Store, other: Store, address: Address, value: Json)
    requires Holds(store, address, value) && Holds(other, address, value) && other[address] == store[address]
    requires forall step | HasStep(value, step) ::
      Part(other, address, value, step) == Part(store, address, value, step)
    ensures Footprint(other, address, value) == Footprint(store, address, value)
  {
    forall a | a in Footprint(store, address, value) && a != address ensures a in Footprint(other, address, value) {
      FootprintParts(store, address, value, a);
      var step :| HasStep(value, step) && a in Part(store, address, value, step);
      PartInside(other, address, value, step);
    }
    forall a | a in Footprint(other, address, value) && a != address ensures a in Footprint(store, address, value) {
      FootprintParts(other, address, value, a);
      var step :| HasStep(value, step) && a in Part(other, address, value, step);
      PartInside(store, address, value, step);
    }
  }

  /** The address reached by following `path`. */
  ghost function WalkTo(store: Store, address: Address, value: Json, path: Path): Address
    requires Holds(store, address, value) && Has(value, path)
    decreases |path|
  {
    if path == [] then address
    else WalkTo(store, Next(store[address], path[0]), Child(value, path[0]), path[1..])
  }

  /** The store after the last container on the way to `path` was made to refer to `newAddress`. */
  ghost function Written(store: Store, address: Address, value: Json, path: Path, newAddress: Address): Store
    requires Holds(store, address, value) && Has(value, path) && path != []
    decreases |path|
  {
    if |path| == 1 then store[address := SetNext(store[address], path[0], newAddress)]
    else Written(store, Next(store[address], path[0]), Child(value, path[0]), path[1..], newAddress)
  }

  lemma {:induction false} WrittenOnlyInside(store: Store, address: Address, value: Json, path: Path,
        newAddress: Address)
    requires Holds(store, address, value) && Has(value, path) && path != []
    ensures var other := Written(store, address, value, path, newAddress);
            && other.Keys == store.Keys
            && forall a | a in store && a !in Footprint(store, address, value) :: other[a] == store[a]
    decreases |path|
  {
    if |path| > 1 {
      WrittenOnlyInside(store, Next(store[address], path[0]), Child(value, path[0]), path[1..], newAddress);
      PartInside(store, address, value, path[0]);
    }
  }

  /** In an unshared body, rebinding one member of one container is exactly `Put`. */
  lemma {:induction false} WrittenHolds(store: Store, address: Address, value: Json, path: Path, newAddress: Address,
        new_: Json)
    requires Holds(store, address, value) && Unshared(store, address, value)
    requires Has(value, path) && path != []
    requires Holds(store, newAddress, new_) && Unshared(store, newAddress, new_)
    requires Footprint(store, address, value) !! Footprint(store, newAddress, new_)
    ensures var other := Written(store, address, value, path, newAddress);
            && Holds(other, address, Put(value, path, new_)) && Unshared(other, address, Put(value, path, new_))
            && Footprint(other, address, Put(value, path, new_))
               <= Footprint(store, address, value) + Footprint(store, newAddress, new_)
    decreases |path|
  {
    var step := path[0];
    var other := Written(store, address, value, path, newAddress);
    var changed := Put(Child(value, step), path[1..], new_);
    var childAddress := if |path| == 1 then newAddress else Next(store[address], step);
    if |path| > 1 {
      InnerApart(store, address, value, step, Footprint(store, newAddress, new_));
      WrittenHolds(store, Next(store[address], step), Child(value, step), path[1..], newAddress, new_);
    }
    RootAndChild(store, address, value, path, newAddress, new_);
    SiblingsKept(store, other, address, value, path, newAddress);
    Reassemble(store, other, address, value, step, childAddress, changed, Footprint(store, newAddress, new_));
  }

  lemma {:induction false} InnerApart(store: Store, address: Address, value: Json, step: Step, extra: set<Address>)
    requires Holds(store, address, value) && Unshared(store, address, value) && HasStep(value, step)
    requires Footprint(store, address, value) !! extra
    ensures Unshared(store, Next(store[address], step), Child(value, step))
    ensures Footprint(store, Next(store[address], step), Child(value, step)) !! extra
  {
    PartInside(store, address, value, step);
  }

  /** What became of the root and of the child on the path, given that the child's own write went well. */
  lemma {:induction false} RootAndChild(store: Store, address: Address, value: Json, path: Path, newAddress: Address,
        new_: Json)
    requires Holds(store, address, value) && Unshared(store, address, value)
    requires Has(value, path) && path != []
    requires Holds(store, newAddress, new_) && Unshared(store, newAddress, new_)
    requires Footprint(store, address, value) !! Footprint(store, newAddress, new_)
    requires |path| > 1 ==>
      var inner := Next(store[address], path[0]);
      var changed := Put(Child(value, path[0]), path[1..], new_);
      var other := Written(store, inner, Child(value, path[0]), path[1..], newAddress);
      && Holds(other, inner, changed) && Unshared(other, inner, changed)
      && Footprint(other, inner, changed) <= Part(store, address, value, path[0]) + Footprint(store, newAddress, new_)
    ensures
      var other := Written(store, address, value, path, newAddress);
      var childAddress := if |path| == 1 then newAddress else Next(store[address], path[0]);
      var changed := Put(Child(value, path[0]), path[1..], new_);
      && address in other && other[address] == SetNext(store[address], path[0], childAddress)
      && Holds(other, childAddress, changed) && Unshared(other, childAddress, changed)
      && Footprint(other, childAddress, changed)
         <= Part(store, address, value, path[0]) + Footprint(store, newAddress, new_)
  {
    if |path| == 1 {
      Frame(store, store[address := SetNext(store[address], path[0], newAddress)], newAddress, new_);
    } else {
      WrittenOnlyInside(store, Next(store[address], path[0]), Child(value, path[0]), path[1..], newAddress);
      SetSame(store[address], path[0]);
      assert address !in Part(store, address, value, path[0]);
    }
  }

  lemma {:induction false} SetSame(cell: Cell, step: Step)
    requires CellHas(cell, step)
    ensures SetNext(cell, step, Next(cell, step)) == cell
  {
  }

  lemma {:induction false} SiblingsKept(store: Store, other: Store, address: Address, value: Json, path: Path,
        newAddress: Address)
    requires Holds(store, address, value) && Unshared(store, address, value)
    requires Has(value, path) && path != [] && other == Written(store, address, value, path, newAddress)
    ensures forall sibling | HasStep(value, sibling) && sibling != path[0] ::
      && Holds(other, Next(store[address], sibling), Child(value, sibling))
      && Footprint(other, Next(store[address], sibling), Child(value, sibling)) == Part(store, address, value, sibling)
      && Unshared(other, Next(store[address], sibling), Child(value, sibling))
  {
    forall sibling | HasStep(value, sibling) && sibling != path[0]
      ensures Holds(other, Next(store[address], sibling), Child(value, sibling))
      ensures Footprint(other, Next(store[address], sibling), Child(value, sibling))
           == Part(store, address, value, sibling)
      ensures Unshared(other, Next(store[address], sibling), Child(value, sibling))
    {
      SiblingKept(store, other, address, value, path, newAddress, sibling);
    }
  }

  lemma {:induction false} SiblingKept(store: Store, other: Store, address: Address, value: Json, path: Path,
        newAddress: Address, sibling: Step)
    requires Holds(store, address, value) && Unshared(store, address, value)
    requires Has(value, path) && path != [] && other == Written(store, address, value, path, newAddress)
    requires HasStep(value, sibling) && sibling != path[0]
    ensures Holds(other, Next(store[address], sibling), Child(value, sibling))
    ensures Footprint(other, Next(store[address], sibling), Child(value, sibling))
         == Part(store, address, value, sibling)
    ensures Unshared(other, Next(store[address], sibling), Child(value, sibling))
  {
    assert Part(store, address, value, path[0]) !! Part(store, address, value, sibling);
    if |path| > 1 {
      WrittenOnlyInside(store, Next(store[address], path[0]), Child(value, path[0]), path[1..], newAddress);
    }
    Frame(store, other, Next(store[address], sibling), Child(value, sibling));
  }

  /** `step`'s child is replaced by one at `childAddress`, the siblings are kept. */
  ghost predicate Replaced(store: Store, other: Store, address: Address, value: Json, step: Step, childAddress: Address,
        changed: Json)
  {
    && Holds(store, address, value) && HasStep(value, step)
    && address in other && other[address] == SetNext(store[address], step, childAddress)
    && Holds(other, childAddress, changed)
    && forall sibling | HasStep(value, sibling) && sibling != step ::
         && Holds(other, Next(store[address], sibling), Child(value, sibling))
         && Footprint(other, Next(store[address], sibling), Child(value, sibling))
            == Part(store, address, value, sibling)
  }

  /** The whole is the value with that child set. */
  lemma {:induction false} ReplacedHolds(store: Store, other: Store, address: Address, value: Json, step: Step,
        childAddress: Address, changed: Json)
    requires Replaced(store, other, address, value, step, childAddress, changed)
    ensures Holds(other, address, SetChild(value, step, changed))
    ensures forall s :: HasStep(SetChild(value, step, changed), s) <==> HasStep(value, s)
    ensures Part(other, address, SetChild(value, step, changed), step) == Footprint(other, childAddress, changed)
    ensures forall s | HasStep(value, s) && s != step ::
              Part(other, address, SetChild(value, step, changed), s) == Part(store, address, value, s)
  {
    var whole := SetChild(value, step, changed);
    forall s | HasStep(whole, s)
      ensures HasStep(value, s)
      ensures s == step ==> Next(other[address], s) == childAddress && Child(whole, s) == changed
      ensures s != step ==> Next(other[address], s) == Next(store[address], s) && Child(whole, s) == Child(value, s)
    {
    }
  }

  lemma {:induction false} ReplacedFootprint(store: Store, other: Store, address: Address, value: Json, step: Step,
        childAddress: Address, changed: Json, extra: set<Address>)
    requires Replaced(store, other, address, value, step, childAddress, changed)
    requires Footprint(other, childAddress, changed) <= Part(store, address, value, step) + extra
    ensures Holds(other, address, SetChild(value, step, changed))
    ensures Footprint(other, address, SetChild(value, step, changed)) <= Footprint(store, address, value) + extra
  {
    ReplacedHolds(store, other, address, value, step, childAddress, changed);
    var whole := SetChild(value, step, changed);
    forall a | a in Footprint(other, address, whole) ensures a in Footprint(store, address, value) + extra {
      if a != address {
        FootprintParts(other, address, whole, a);
        var s :| HasStep(whole, s) && a in Part(other, address, whole, s);
        PartInside(store, address, value, s);
      }
    }
  }

  /** One child replaced, the siblings kept: the whole is the value with that child set. */
  lemma {:induction false} Reassemble(store: Store, other: Store, address: Address, value: Json, step: Step,
        childAddress: Address, changed: Json, extra: set<Address>)
    requires Replaced(store, other, address, value, step, childAddress, changed) && Unshared(store, address, value)
    requires Unshared(other, childAddress, changed)
    requires Footprint(other, childAddress, changed) <= Part(store, address, value, step) + extra
    requires extra !! Footprint(store, address, value)
    requires forall sibling | HasStep(value, sibling) && sibling != step ::
      Unshared(other, Next(store[address], sibling), Child(value, sibling))
    ensures Holds(other, address, SetChild(value, step, changed))
    ensures Unshared(other, address, SetChild(value, step, changed))
    ensures Footprint(other, address, SetChild(value, step, changed)) <= Footprint(store, address, value) + extra
  {
    ReplacedFootprint(store, other, address, value, step, childAddress, changed, extra);
    ReplacedUnshared(store, other, address, value, step, childAddress, changed, extra);
  }

  lemma {:induction false} ReplacedApart(store: Store, other: Store, address: Address, value: Json, step: Step,
        childAddress: Address, changed: Json, extra: set<Address>, s: Step, t: Step)
    requires Replaced(store, other, address, value, step, childAddress, changed) && Unshared(store, address, value)
    requires Footprint(other, childAddress, changed) <= Part(store, address, value, step) + extra
    requires extra !! Footprint(store, address, value)
    requires HasStep(value, s) && HasStep(value, t) && s != t
    ensures Holds(other, address, SetChild(value, step, changed))
    ensures HasStep(SetChild(value, step, changed), s) && HasStep(SetChild(value, step, changed), t)
    ensures Part(other, address, SetChild(value, step, changed), s)
      !! Part(other, address, SetChild(value, step, changed), t)
  {
    ReplacedHolds(store, other, address, value, step, childAddress, changed);
    assert Part(store, address, value, s) !! Part(store, address, value, t);
    PartInside(store, address, value, s);
    PartInside(store, address, value, t);
  }

  lemma {:induction false} ReplacedUnshared(store: Store, other: Store, address: Address, value: Json, step: Step,
        childAddress: Address, changed: Json, extra: set<Address>)
    requires Replaced(store, other, address, value, step, childAddress, changed) && Unshared(store, address, value)
    requires Unshared(other, childAddress, changed)
    requires Footprint(other, childAddress, changed) <= Part(store, address, value, step) + extra
    requires extra !! Footprint(store, address, value)
    requires forall sibling | HasStep(value, sibling) && sibling != step ::
      Unshared(other, Next(store[address], sibling), Child(value, sibling))
    ensures Holds(other, address, SetChild(value, step, changed))
      && Unshared(other, address, SetChild(value, step, changed))
  {
    ReplacedHolds(store, other, address, value, step, childAddress, changed);
    var whole := SetChild(value, step, changed);
    forall s, t | HasStep(whole, s) && HasStep(whole, t) && s != t
      ensures Part(other, address, whole, s) !! Part(other, address, whole, t)
    {
      ReplacedApart(store, other, address, value, step, childAddress, changed, extra, s, t);
    }
    forall s | HasStep(whole, s)
      ensures address !in Part(other, address, whole, s) && Unshared(other, Next(other[address], s), Child(whole, s))
    {
      PartInside(store, address, value, s);
    }
  }

  /** The walk and the rebinding as they are written. */
  method ReplaceBodyValue(store: Store, body: Address, path: Path, newAddress: Address, ghost value: Json,
        ghost new_: Json)
    returns (other: Store, root: Address)
    requires Holds(store, body, value) && Unshared(store, body, value) && Has(value, path)
    requires Holds(store, newAddress, new_) && Unshared(store, newAddress, new_)
    requires Footprint(store, body, value) !! Footprint(store, newAddress, new_)
    ensures Holds(other, root, Put(value, path, new_)) && Unshared(other, root, Put(value, path, new_))
    ensures Footprint(other, root, Put(value, path, new_))
      <= Footprint(store, body, value) + Footprint(store, newAddress, new_)
    ensures path != [] ==> root == body
    ensures other.Keys == store.Keys
    ensures forall a | a in store && a !in Footprint(store, body, value) :: other[a] == store[a]
  {
    if path == [] {
      return store, newAddress;
    }
    var current := body;
    ghost var node := value;
    for i := 0 to |path| - 1
      invariant Holds(store, current, node) && Has(node, path[i..])
      invariant Written(store, body, value, path, newAddress) == Written(store, current, node, path[i..], newAddress)
    {
      assert path[i..][1..] == path[i + 1..];
      current, node := Next(store[current], path[i]), Child(node, path[i]);
    }
    var last := path[|path| - 1];
    assert path[|path| - 1..] == [last];
    other, root := store[current := SetNext(store[current], last, newAddress)], body;
    WrittenHolds(store, body, value, path, newAddress, new_);
    WrittenOnlyInside(store, body, value, path, newAddress);
  }

  /** Values kept apart from the body, such as the endpoint's own definition, are not altered. */
  lemma {:induction false} OthersKept(store: Store, other: Store, body: Address, value: Json, kept: Address,
        keptValue: Json)
    requires Holds(store, body, value) && Holds(store, kept, keptValue)
    requires Footprint(store, body, value) !! Footprint(store, kept, keptValue)
    requires other.Keys == store.Keys
    requires forall a | a in store && a !in Footprint(store, body, value) :: other[a] == store[a]
    ensures Holds(other, kept, keptValue)
  {
    Frame(store, other, kept, keptValue);
  }

  /** An address holds at most one value. */
  lemma {:induction false} HoldsOne(store: Store, address: Address, value: Json, other: Json)
    requires Holds(store, address, value) && Holds(store, address, other)
    ensures value == other
    decreases value
  {
    match value
    case Obj(fields) =>
      forall key | key in fields ensures fields[key] == other.fields[key] {
        assert HasStep(value, Key(key)) && HasStep(other, Key(key));
        HoldsOne(store, Next(store[address], Key(key)), Child(value, Key(key)), Child(other, Key(key)));
      }
    case Arr(items) =>
      forall i | 0 <= i < |items| ensures items[i] == other.items[i] {
        assert HasStep(value, Index(i)) && HasStep(other, Index(i));
        HoldsOne(store, Next(store[address], Index(i)), Child(value, Index(i)), Child(other, Index(i)));
      }
    case _ =>
  }

  /** Sharing is what the deep copy must rule out: if two members of the root are one container,
      a write through the first that changes it shows up under the second as well, and the body is
      no longer the one asked for. */
  lemma {:induction false} SharedContainerChangesTwice(store: Store, address: Address, value: Json, path: Path,
        newAddress: Address, new_: Json, twin: Step)
    requires Holds(store, address, value) && Has(value, path) && |path| > 1 && Holds(store, newAddress, new_)
    requires HasStep(value, twin) && twin != path[0] && Next(store[address], twin) == Next(store[address], path[0])
    requires Unshared(store, Next(store[address], path[0]), Child(value, path[0])) && Unshared(store, newAddress, new_)
    requires address !in Part(store, address, value, path[0])
    requires Part(store, address, value, path[0]) !! Footprint(store, newAddress, new_)
    requires Put(Child(value, path[0]), path[1..], new_) != Child(value, path[0])
    ensures !Holds(Written(store, address, value, path, newAddress), address, Put(value, path, new_))
  {
    var (shared, child) := (Next(store[address], path[0]), Child(value, path[0]));
    var other := Written(store, shared, child, path[1..], newAddress);
    HoldsOne(store, shared, child, Child(value, twin));
    WrittenHolds(store, shared, child, path[1..], newAddress, new_);
    WrittenOnlyInside(store, shared, child, path[1..], newAddress);
    var asked := Put(value, path, new_);
    assert HasStep(asked, twin) && Child(asked, twin) == child;
    if Holds(other, address, asked) {
      HoldsOne(other, shared, child, Put(child, path[1..], new_));
      assert false;
    }
  }
}
